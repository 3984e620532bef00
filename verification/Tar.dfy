/** The boot image: number fields and headers of a ustar archive (src/fs/bootimg.c; the format is
    that of POSIX.1, pax utility, "ustar Interchange Format"). */
module Tar {
  import opened Memory

  const BLOCK := 512

  /** The character at a position; beyond the image memory reads as NUL. */
  function At(s: seq<byte>, i: nat): int {
    if i < |s| then s[i] as int else 0
  }

  // ----- octal numbers

  predicate IsOctal(c: int) { 48 <= c < 56 }

  predicate IsBlank(c: int) { c == 32 || c == 9 }

  /** How many octal digits follow, at most n. */
  function DigitCount(s: seq<byte>, at: nat, n: nat): (k: nat)
    ensures k <= n && forall i :: at <= i < at + k ==> IsOctal(At(s, i))
    ensures k == n || !IsOctal(At(s, at + k))
    decreases n
  {
    if n == 0 || !IsOctal(At(s, at)) then 0 else 1 + DigitCount(s, at + 1, n - 1)
  }

  /** The value of n octal digits. */
  function OctalValue(s: seq<byte>, at: nat, n: nat): nat
    requires forall i :: at <= i < at + n ==> IsOctal(At(s, i))
  {
    if n == 0 then 0
    else
      assert IsOctal(At(s, at + n - 1));
      OctalValue(s, at, n - 1) * 8 + (At(s, at + n - 1) - 48)
  }

  lemma {:induction false} ValueGrows(s: seq<byte>, at: nat, k: nat, n: nat)
    requires k <= n && forall i :: at <= i < at + n ==> IsOctal(At(s, i))
    ensures OctalValue(s, at, k) <= OctalValue(s, at, n)
    decreases n - k
  {
    if k < n { ValueGrows(s, at, k + 1, n); }
  }

  /** Blanks at the front. */
  function Blanks(s: seq<byte>, at: nat): (k: nat)
    ensures !IsBlank(At(s, at + k)) && forall i :: at <= i < at + k ==> IsBlank(At(s, i))
    decreases |s| - at
  {
    if at < |s| && IsBlank(At(s, at)) then 1 + Blanks(s, at + 1) else 0
  }

  /** What an octal field says: sign and digits after the blanks. */
  function OctalField(s: seq<byte>, at: nat, width: nat): int {
    var p := at + Blanks(s, at);
    if At(s, p) == 45 then 0 - OctalValue(s, p + 1, DigitCount(s, p + 1, width))
    else OctalValue(s, p, DigitCount(s, p, width))
  }

  /** tar_atol8: exact up to 2^31 - 1; beyond that -1, or 1 if there is a minus sign. */
  method Atol8(s: seq<byte>, at: nat, width: nat) returns (r: s32)
    ensures
      var v := OctalField(s, at, width);
      r == if v > MAX_S32 then -1 else if v < -MAX_S32 then 1 else v
  {
    var p := at;
    while IsBlank(At(s, p))
      invariant at <= p && p - at <= Blanks(s, at)
      decreases at + Blanks(s, at) - p
    {
      p := p + 1;
    }
    var sign := 1;
    if At(s, p) == 45 {
      sign := -1;
      p := p + 1;
    }
    var l := Digits(s, p, width);
    return if sign < 0 then -l else l;
  }

  /** The digit loop: -1, which is (u32)~0 stored in an s32, if the value does not fit. */
  method Digits(s: seq<byte>, start: nat, width: nat) returns (l: s32)
    ensures
      var v := OctalValue(s, start, DigitCount(s, start, width));
      l == if v > MAX_S32 then -1 else v
  {
    hide OctalValue;
    var limit := MAX_S32 / 8;
    var lastDigitLimit := MAX_S32 % 8;
    ghost var n := DigitCount(s, start, width);
    var p, left := start, width;
    l := 0;
    OctalStep(s, start, 0, n);
    var digit := At(s, p) - 48;
    while digit >= 0 && digit < 8 && left > 0
      invariant 0 <= left <= width && p == start + (width - left) && width - left <= n
      invariant digit == At(s, p) - 48
      invariant l == OctalValue(s, start, width - left)
      decreases left
    {
      left := left - 1;
      OctalStep(s, start, width - left, n);
      if l > limit || (l == limit && digit > lastDigitLimit) {
        return -1;
      }
      l := l * 8 + digit;
      p := p + 1;
      digit := At(s, p) - 48;
    }
    OctalStep(s, start, width - left, n);
  }

  /** One digit more. */
  lemma OctalStep(s: seq<byte>, at: nat, k: nat, n: nat)
    requires k <= n && forall i :: at <= i < at + n ==> IsOctal(At(s, i))
    ensures OctalValue(s, at, 0) == 0
    ensures k > 0 ==> OctalValue(s, at, k) == OctalValue(s, at, k - 1) * 8 + (At(s, at + k - 1) - 48)
    ensures OctalValue(s, at, k) <= OctalValue(s, at, n)
  {
    ValueGrows(s, at, k, n);
  }

  // ----- base-256 numbers

  /** The signed value of the first n bytes; bit 6 of the first byte is the sign. */
  function SignedValue(s: seq<byte>, n: nat): int
    requires 0 < n <= |s|
  {
    if n == 1 then s[0] as int % 64 - (if s[0] as int / 64 % 2 == 1 then 64 else 0)
    else SignedValue(s, n - 1) * 256 + s[n - 1] as int
  }

  function Clamp(v: int): s32 {
    if v > MAX_S32 then MAX_S32 else if v < MIN_S32 then MIN_S32 else v
  }

  /** Once out of range, always out of range. */
  lemma {:induction false} StaysOut(s: seq<byte>, k: nat, n: nat)
    requires 0 < k <= n <= |s|
    ensures SignedValue(s, k) > MAX_S32 / 256 && k < n ==> SignedValue(s, n) > MAX_S32
    ensures SignedValue(s, k) < MIN_S32 / 256 && k < n ==> SignedValue(s, n) < MIN_S32
    decreases n - k
  {
    if k < n - 1 {
      StaysOut(s, k, n - 1);
    }
  }

  /** tar_atol256: the signed big-endian value, clamped to 32 bits. */
  method Atol256(s: seq<byte>) returns (l: s32)
    requires s != []
    ensures l == Clamp(SignedValue(s, |s|))
  {
    var upper, lower := MAX_S32 / 256, MIN_S32 / 256;
    l := s[0] as int % 64 - if s[0] as int / 64 % 2 == 1 then 64 else 0;
    var k := 1;
    while k < |s|
      invariant 1 <= k <= |s| && l == SignedValue(s, k)
    {
      StaysOut(s, k, |s|);
      if l > upper {
        return MAX_S32;
      } else if l < lower {
        return MIN_S32;
      }
      l := l * 256 + s[k] as int;
      k := k + 1;
    }
  }

  /** A signed number of `width` bytes in base 256, marked by the top bit of the first. */
  function Base256(v: int, width: nat): (r: seq<byte>)
    requires width > 0
    ensures |r| == width && r[0] >= 0x80
    decreases width
  {
    if width == 1 then [(128 + v % 128) as byte] else Base256(v / 256, width - 1) + [(v % 256) as byte]
  }

  /** The numbers that fit: the first byte holds the sign and six bits. */
  predicate InBase256(v: int, width: nat)
    decreases width
  {
    if width <= 1 then -64 <= v < 64 else InBase256(v / 256, width - 1)
  }

  lemma {:induction false} SignedPrefix(s: seq<byte>, t: seq<byte>, n: nat)
    requires 0 < n <= |s|
    ensures SignedValue(s + t, n) == SignedValue(s, n)
  {
    if n > 1 { SignedPrefix(s, t, n - 1); }
  }

  /** A number that is written in base 256 is read back. */
  lemma {:induction false} Base256Read(v: int, width: nat)
    requires width > 0 && InBase256(v, width)
    ensures SignedValue(Base256(v, width), width) == v
    decreases width
  {
    if width > 1 {
      Base256Read(v / 256, width - 1);
      SignedPrefix(Base256(v / 256, width - 1), [(v % 256) as byte], width - 1);
    }
  }

  // ----- archives

  datatype Kind = Regular | Directory | Unknown

  const REGTYPE: byte := 48
  const AREGTYPE: byte := 0
  const DIRTYPE: byte := 53

  /** One member of an archive. */
  datatype Entry = Entry(name: seq<byte>, typeflag: byte, data: seq<byte>)

  function KindOf(e: Entry): Kind {
    if e.typeflag == REGTYPE || e.typeflag == AREGTYPE then Regular
    else if e.typeflag == DIRTYPE then Directory else Unknown
  }

  function Padding(n: nat): (r: nat)
    ensures r < BLOCK && (n + r) % BLOCK == 0
  {
    (BLOCK - n % BLOCK) % BLOCK
  }

  /** The size field of a header: octal, or base 256 if the top bit of its first byte is set. */
  function SizeField(a: seq<byte>, p: nat): int
    requires p + BLOCK <= |a|
  {
    if a[p + 124] >= 0x80 then SignedValue(a[p + 124..p + 136], 12) else OctalField(a, p + 124, 12)
  }

  /** A 512-byte header for the entry at p. Fields the reader ignores may hold anything. */
  ghost predicate HeaderFor(a: seq<byte>, p: nat, e: Entry) {
    && p + BLOCK <= |a|
    && 0 < |e.name| < 100 && a[p..p + |e.name|] == e.name && 0 !in e.name && a[p + |e.name|] == 0
    && SizeField(a, p) == |e.data| && |e.data| <= MAX_S32
    && a[p + 156] == e.typeflag
    && a[p + 257] == 0x75
  }

  /** From p on: members, ended by two zero bytes where the next name would be, or by the end of
      the image. */
  ghost predicate Archive(a: seq<byte>, p: nat, es: seq<Entry>)
    decreases |es|
  {
    if es == [] then p == |a| || (p + BLOCK <= |a| && a[p] == 0 && a[p + 1] == 0)
    else
      var n := |es[0].data|;
      && HeaderFor(a, p, es[0])
      && p + BLOCK + n + Padding(n) <= |a|
      && a[p + BLOCK..p + BLOCK + n] == es[0].data
      && Archive(a, p + BLOCK + n + Padding(n), es[1..])
  }

  /** The name field up to its NUL. */
  method NameOf(a: seq<byte>, p: nat, ghost e: Entry) returns (name: seq<byte>)
    requires HeaderFor(a, p, e)
    ensures name == e.name
  {
    var n := 0;
    while a[p + n] != 0
      invariant 0 <= n <= |e.name|
      decreases |e.name| - n
    {
      n := n + 1;
    }
    assert a[p..p + |e.name|] == e.name;
    name := a[p..p + n];
  }

  /** tar_atol on the size field. */
  method SizeOf(a: seq<byte>, p: nat, ghost e: Entry) returns (size: nat)
    requires HeaderFor(a, p, e)
    ensures size == |e.data|
  {
    var l: s32;
    if a[p + 124] >= 0x80 {
      l := Atol256(a[p + 124..p + 136]);
    } else {
      l := Atol8(a, p + 124, 12);
    }
    size := l % U32_LIMIT;
  }

  /** ROUND_UP(size, 512) in 32 bits. */
  function RoundUp(size: nat): nat {
    (size + BLOCK - 1) % U32_LIMIT / BLOCK * BLOCK
  }

  lemma RoundUpPads(n: nat)
    requires n <= MAX_S32
    ensures RoundUp(n) == n + Padding(n)
  {
    var q, r := n / BLOCK, n % BLOCK;
    assert n == q * BLOCK + r;
    assert (n + BLOCK - 1) / BLOCK == if r == 0 then q else q + 1;
  }

  /** Two zero bytes never start a member. */
  lemma NamesAreNotEmpty(a: seq<byte>, p: nat, es: seq<Entry>)
    requires Archive(a, p, es) && p < |a|
    ensures p + BLOCK <= |a| && (es == [] <==> a[p] == 0 && a[p + 1] == 0)
  {
    if es != [] {
      var name := es[0].name;
      assert a[p..p + |name|][0] == a[p];
      assert name[0] in name;
    }
  }

  /** What the loop finds at a member. */
  lemma Member(a: seq<byte>, p: nat, es: seq<Entry>)
    requires Archive(a, p, es) && es != []
    ensures
      var n := |es[0].data|;
      && HeaderFor(a, p, es[0]) && p + BLOCK + n + Padding(n) <= |a| && n <= MAX_S32
      && a[p + 156] == es[0].typeflag && a[p + 257] == 0x75
      && a[p + BLOCK..p + BLOCK + n] == es[0].data
      && Archive(a, p + BLOCK + n + Padding(n), es[1..])
      && (n == 0 ==> Padding(n) == 0)
  {
  }

  lemma AtEnd(a: seq<byte>, p: nat, es: seq<Entry>)
    requires Archive(a, p, es)
    requires p >= |a| || (p + 1 < |a| && a[p] == 0 && a[p + 1] == 0)
    ensures es == []
  {
    if p < |a| { NamesAreNotEmpty(a, p, es); }
  }

  // ----- writing an archive

  function Pow8(n: nat): nat { if n == 0 then 1 else 8 * Pow8(n - 1) }

  /** n in octal, in exactly `width` digits. */
  function OctalDigits(n: nat, width: nat): (r: seq<byte>)
    ensures |r| == width && forall i :: 0 <= i < width ==> 48 <= r[i] < 56
  {
    if width == 0 then [] else OctalDigits(n / 8, width - 1) + [(48 + n % 8) as byte]
  }

  /** Digits that are written are read back. */
  lemma {:induction false} DigitsRead(s: seq<byte>, at: nat, n: nat, width: nat)
    requires at + width <= |s| && s[at..at + width] == OctalDigits(n, width) && n < Pow8(width)
    ensures forall i :: at <= i < at + width ==> IsOctal(At(s, i))
    ensures OctalValue(s, at, width) == n
  {
    if width > 0 {
      var d := OctalDigits(n, width);
      assert s[at..at + width][..width - 1] == s[at..at + width - 1] == d[..width - 1] == OctalDigits(n / 8, width - 1);
      DigitsRead(s, at, n / 8, width - 1);
      assert s[at + width - 1] == s[at..at + width][width - 1] == d[width - 1];
    }
  }

  predicate EntryOk(e: Entry) {
    0 < |e.name| < 100 && 0 !in e.name && |e.data| <= MAX_S32
  }

  /** The fields of a header that the reader ignores, and how the size is written: in octal, or in
      base 256. */
  datatype Meta =
    Meta(mode: nat, uid: nat, gid: nat, mtime: nat, uname: seq<byte>, gname: seq<byte>, wide: bool)

  predicate MetaOk(m: Meta) {
    m.mode < 0x20_0000 && m.uid < 0x20_0000 && m.gid < 0x20_0000 && m.mtime < 0x2_0000_0000
    && |m.uname| < 32 && |m.gname| < 32
  }

  /** A number with a NUL behind it. */
  function Number(n: nat, width: nat): (r: seq<byte>)
    requires width > 0
    ensures |r| == width
  {
    OctalDigits(n, width - 1) + [0]
  }

  /** A text filled up with NULs. */
  function Text(t: seq<byte>, width: nat): (r: seq<byte>)
    requires |t| <= width
    ensures |r| == width && r[..|t|] == t && forall i :: |t| <= i < width ==> r[i] == 0
  {
    t + Zeros(width - |t|)
  }

  function Sum(s: seq<byte>): nat {
    if s == [] then 0 else s[0] as nat + Sum(s[1..])
  }

  function SizeText(e: Entry, m: Meta): (r: seq<byte>)
    ensures |r| == 12
  {
    if m.wide then Base256(|e.data|, 12) else Number(|e.data|, 12)
  }

  /** name, mode, uid, gid, size and mtime. */
  function FrontFields(e: Entry, m: Meta): (h: seq<byte>)
    requires EntryOk(e)
    ensures |h| == 148
  {
    Text(e.name, 100) + Number(m.mode, 8) + Number(m.uid, 8) + Number(m.gid, 8) + SizeText(e, m)
      + Number(m.mtime, 12)
  }

  /** typeflag, linkname, magic and version, uname, gname, devmajor, devminor and prefix, and the
      rest of the block. */
  function BackFields(e: Entry, m: Meta): (h: seq<byte>)
    requires MetaOk(m)
    ensures |h| == 356 && h[0] == e.typeflag && h[101] == 0x75
  {
    [e.typeflag] + Zeros(100) + [0x75, 0x73, 0x74, 0x61, 0x72, 0, 48, 48] + Text(m.uname, 32) + Text(m.gname, 32)
      + Number(0, 8) + Number(0, 8) + Zeros(167)
  }

  /** The sum of the bytes of a header, its own field counted as blanks. */
  function Checksum(e: Entry, m: Meta): nat
    requires EntryOk(e) && MetaOk(m)
  {
    Sum(FrontFields(e, m)) + 8 * 32 + Sum(BackFields(e, m))
  }

  /** A ustar header. */
  function Header(e: Entry, m: Meta): (h: seq<byte>)
    requires EntryOk(e) && MetaOk(m)
    ensures |h| == BLOCK
  {
    FrontFields(e, m) + (OctalDigits(Checksum(e, m), 6) + [0, 32]) + BackFields(e, m)
  }

  predicate MembersOk(es: seq<Entry>, ms: seq<Meta>) {
    |ms| == |es| && (forall e :: e in es ==> EntryOk(e)) && (forall m :: m in ms ==> MetaOk(m))
  }

  function Write(es: seq<Entry>, ms: seq<Meta>): seq<byte>
    requires MembersOk(es, ms)
  {
    if es == [] then []
    else Header(es[0], ms[0]) + es[0].data + Zeros(Padding(|es[0].data|)) + Write(es[1..], ms[1..])
  }

  lemma FrontAt(e: Entry, m: Meta)
    requires EntryOk(e)
    ensures
      var h := FrontFields(e, m);
      h[..|e.name|] == e.name && h[|e.name|] == 0 && h[124..136] == SizeText(e, m)
  {
    var h := FrontFields(e, m);
    var t := Text(e.name, 100);
    assert h[..100] == t;
    assert h[..|e.name|] == t[..|e.name|];
  }

  lemma HeaderFields(a: seq<byte>, p: nat, e: Entry, m: Meta)
    requires EntryOk(e) && MetaOk(m) && p + BLOCK <= |a| && a[p..p + BLOCK] == Header(e, m)
    ensures a[p..p + |e.name|] == e.name && a[p + |e.name|] == 0
    ensures a[p + 124..p + 136] == SizeText(e, m)
    ensures a[p + 156] == e.typeflag && a[p + 257] == 0x75
  {
    hide FrontFields, BackFields, OctalDigits, Checksum, SizeText;
    var h, f, b := Header(e, m), FrontFields(e, m), BackFields(e, m);
    FrontAt(e, m);
    assert forall i :: 0 <= i < BLOCK ==> a[p + i] == a[p..p + BLOCK][i] == h[i];
    assert forall i :: 0 <= i < 148 ==> h[i] == f[i];
    assert a[p..p + |e.name|] == f[..|e.name|];
    assert a[p + 124..p + 136] == f[124..136];
    assert h[156] == b[0] && h[257] == b[101];
  }

  lemma HeaderIsFor(a: seq<byte>, p: nat, e: Entry, m: Meta)
    requires EntryOk(e) && MetaOk(m) && p + BLOCK <= |a| && a[p..p + BLOCK] == Header(e, m)
    ensures HeaderFor(a, p, e)
  {
    hide Header;
    HeaderFields(a, p, e, m);
    SizeIsRead(a, p, e, m);
  }

  /** The size is read back however it is written. */
  lemma SizeIsRead(a: seq<byte>, p: nat, e: Entry, m: Meta)
    requires EntryOk(e) && p + BLOCK <= |a| && a[p + 124..p + 136] == SizeText(e, m)
    ensures SizeField(a, p) == |e.data|
  {
    hide OctalField;
    var n, f := |e.data|, a[p + 124..p + 136];
    assert f[0] == a[p + 124];
    if m.wide {
      FitsBase256(n);
      Base256Read(n, 12);
    } else {
      assert Pow8(11) == 0x2_0000_0000 by {
        assert Pow8(4) == 4096 && Pow8(8) == 4096 * Pow8(4);
      }
      assert a[p + 124..p + 135] == f[..11] == OctalDigits(n, 11);
      assert a[p + 135] == f[11];
      OctalFieldRead(a, p + 124, 0, false, n, 11, 12);
    }
  }

  /** Blanks, perhaps a minus sign, and digits up to something else or the end of the field. */
  lemma OctalFieldRead(s: seq<byte>, at: nat, blanks: nat, minus: bool, n: nat, digits: nat, width: nat)
    requires forall i :: at <= i < at + blanks ==> At(s, i) == 32 || At(s, i) == 9
    requires minus ==> At(s, at + blanks) == 45
    requires 0 < digits <= width && n < Pow8(digits)
    requires
      var p := at + blanks + if minus then 1 else 0;
      && p + digits <= |s| && s[p..p + digits] == OctalDigits(n, digits)
      && (digits < width ==> !(48 <= At(s, p + digits) < 56))
    ensures OctalField(s, at, width) == if minus then 0 - n else n
  {
    hide OctalValue, OctalDigits, Pow8;
    var p := at + blanks + if minus then 1 else 0;
    DigitsRead(s, p, n, digits);
    assert IsOctal(At(s, p));
    BlanksAre(s, at, blanks);
    CountIs(s, p, digits, width);
  }

  lemma {:induction false} BlanksAre(s: seq<byte>, at: nat, k: nat)
    requires (forall i :: at <= i < at + k ==> IsBlank(At(s, i))) && !IsBlank(At(s, at + k))
    ensures Blanks(s, at) == k
    decreases k
  {
    if k > 0 { BlanksAre(s, at + 1, k - 1); }
  }

  lemma {:induction false} CountIs(s: seq<byte>, at: nat, k: nat, n: nat)
    requires k <= n && (forall i :: at <= i < at + k ==> IsOctal(At(s, i))) && (k < n ==> !IsOctal(At(s, at + k)))
    ensures DigitCount(s, at, n) == k
    decreases k
  {
    if k > 0 { CountIs(s, at + 1, k - 1, n - 1); }
  }

  lemma {:induction false} ZeroFits(width: nat)
    ensures InBase256(0, width)
  {
    if width > 1 { ZeroFits(width - 1); }
  }

  lemma FitsBase256(n: nat)
    requires n <= MAX_S32
    ensures InBase256(n, 12)
  {
    var a := n / 256;
    var b := a / 256;
    var c := b / 256;
    assert c / 256 == 0;
    ZeroFits(8);
    assert InBase256(c, 9);
    assert InBase256(b, 10);
    assert InBase256(a, 11);
  }

  lemma Pieces(pre: seq<byte>, h: seq<byte>, d: seq<byte>, z: seq<byte>, rest: seq<byte>, end: seq<byte>)
    ensures
      var a := pre + (h + d + z + rest) + end;
      && a == (pre + h + d + z) + rest + end
      && a[|pre|..|pre| + |h|] == h
      && a[|pre| + |h|..|pre| + |h| + |d|] == d
      && |pre + h + d + z| == |pre| + |h| + |d| + |z| <= |a|
  {
  }

  /** What the writer writes, with two zero blocks or nothing behind it, is a well-formed archive of
      its members. */
  lemma {:induction false} WrittenIsArchive(pre: seq<byte>, es: seq<Entry>, ms: seq<Meta>, end: seq<byte>)
    requires MembersOk(es, ms)
    requires end == [] || end == Zeros(2 * BLOCK)
    ensures Archive(pre + Write(es, ms) + end, |pre|, es)
    decreases |es|
  {
    hide Archive, Header, HeaderFor, Padding;
    var a := pre + Write(es, ms) + end;
    if es == [] {
      assert a == pre + end;
      ArchiveEnd(a, |pre|);
    } else {
      var h, d, z := Header(es[0], ms[0]), es[0].data, Zeros(Padding(|es[0].data|));
      Pieces(pre, h, d, z, Write(es[1..], ms[1..]), end);
      WrittenIsArchive(pre + h + d + z, es[1..], ms[1..], end);
      ArchiveStep(a, |pre|, es, ms[0]);
    }
  }

  lemma ArchiveEnd(a: seq<byte>, p: nat)
    requires p <= |a| && (a[p..] == [] || a[p..] == Zeros(2 * BLOCK))
    ensures Archive(a, p, [])
  {
    if a[p..] != [] { assert a[p..][0] == a[p] && a[p..][1] == a[p + 1]; }
  }

  lemma ArchiveStep(a: seq<byte>, p: nat, es: seq<Entry>, m: Meta)
    requires es != [] && EntryOk(es[0]) && MetaOk(m)
    requires p + BLOCK + |es[0].data| + Padding(|es[0].data|) <= |a|
    requires a[p..p + BLOCK] == Header(es[0], m) && a[p + BLOCK..p + BLOCK + |es[0].data|] == es[0].data
    requires Archive(a, p + BLOCK + |es[0].data| + Padding(|es[0].data|), es[1..])
    ensures Archive(a, p, es)
  {
    hide Header, HeaderFor;
    HeaderIsFor(a, p, es[0], m);
  }
}
