/** A ramfs file behind one handle: read, write, seek and truncate on open
    (src/fs/ramfs/ramfs.c:146-197, src/fs/vfs.c:377-423). */
module RamFile {
  import opened Errno
  import opened Memory

  const CHUNK := 4096

  /** The kernel stops at boot with more than 1 GB of memory (src/mm/vmm.c:12), so no heap block is
      larger. */
  const MAX_BUFFER := 0x4000_0000

  datatype Whence = Set | Cur | End | Other

  /** Overrun is a memcpy that leaves the heap block of the file. */
  datatype Result = Ok(count: nat) | Error(code: nat) | Overrun

  datatype ReadResult = Bytes(bytes: seq<byte>) | Refused(code: nat) | ReadOverrun

  /** What kmalloc returns if it is called, with anything in it, or NULL. */
  type Kmalloc = nat -> Option<seq<byte>>

  /** A block of at least the size asked for, up to the sizes whose rounding wraps. */
  ghost predicate KmallocOk(block: Kmalloc) {
    forall n: nat {:trigger block(n)} :: n < U32_LIMIT - 7 && block(n).Some? ==> n <= |block(n).value| <= MAX_BUFFER
  }

  /** ROUND_CHUNK in 32 bits. */
  function RoundChunk(n: nat): (r: nat)
    ensures n + CHUNK <= U32_LIMIT ==> n <= r < n + CHUNK
    ensures r <= U32_LIMIT - CHUNK && r % CHUNK == 0
  {
    (n + CHUNK - 1) % U32_LIMIT / CHUNK * CHUNK
  }

  /** A sum in 32 bits. */
  function Wrap(n: nat): (r: nat)
    ensures r < U32_LIMIT && (n < U32_LIMIT ==> r == n)
  {
    n % U32_LIMIT
  }

  lemma WrapTwice(a: nat, b: nat)
    ensures Wrap(Wrap(a) + b) == Wrap(a + b)
  {
    var q := a / U32_LIMIT;
    assert a == q * U32_LIMIT + Wrap(a);
    assert (Wrap(a) + b + q * U32_LIMIT) % U32_LIMIT == (Wrap(a) + b) % U32_LIMIT;
  }

  /** A position moved by a 32-bit offset lies in the file exactly if the signed sum does. */
  lemma SeekWraps(offset: nat, base: nat, size: nat)
    requires offset < U32_LIMIT && base <= size <= MAX_BUFFER
    ensures Wrap(offset + base) <= size <==> 0 <= Signed32(offset) + base <= size
    ensures Wrap(offset + base) <= size ==> Wrap(offset + base) == Signed32(offset) + base
  {
  }

  // ----- what a file with a cursor is

  datatype Cursor = Cursor(bytes: seq<byte>, at: nat)

  predicate CursorOk(c: Cursor) { c.at <= |c.bytes| }

  /** The bytes from the cursor on, n of them or all that are left. */
  function Ahead(c: Cursor, n: nat): (r: seq<byte>)
    requires CursorOk(c)
    ensures r <= c.bytes[c.at..] && |r| == if c.at + n > |c.bytes| then |c.bytes| - c.at else n
  {
    if c.at + n > |c.bytes| then c.bytes[c.at..] else c.bytes[c.at..c.at + n]
  }

  /** The bytes at the cursor replaced, and the file extended if they do not fit. */
  function Overwritten(c: Cursor, b: seq<byte>): Cursor
    requires CursorOk(c)
  {
    Cursor(c.bytes[..c.at] + b + if c.at + |b| <= |c.bytes| then c.bytes[c.at + |b|..] else [], c.at + |b|)
  }

  // ----- 32-bit ends

  /** How many bytes ramfs_read copies: its test for the end of the file is a 32-bit sum. */
  function ReadCount(c: Cursor, n: nat): nat
    requires CursorOk(c)
  {
    if Wrap(c.at + n) > |c.bytes| then |c.bytes| - c.at else n
  }

  /** A read inside the file copies bytes of the file exactly if the sum does not wrap. */
  lemma ReadStaysIff(c: Cursor, n: nat)
    requires CursorOk(c) && c.at < |c.bytes| <= MAX_BUFFER && n < U32_LIMIT
    ensures c.at + ReadCount(c, n) <= |c.bytes| <==> c.at + n < U32_LIMIT
    ensures c.at + n < U32_LIMIT ==> c.bytes[c.at..c.at + ReadCount(c, n)] == Ahead(c, n)
    ensures c.at + n >= U32_LIMIT ==> c.at + ReadCount(c, n) > MAX_BUFFER
  {
    if c.at + n >= U32_LIMIT {
      assert Wrap(c.at + n) == c.at + n - U32_LIMIT;
    }
  }

  /** The size ramfs_write asks kmalloc for when `end` does not fit a block of the old size. */
  function Wanted(had: Option<nat>, end: nat): (r: nat)
    ensures end <= U32_LIMIT - CHUNK ==> r >= end
    ensures had.Some? && r != 2 * had.value ==> 2 * had.value < end
    ensures had.None? || r != 2 * had.value ==> r % CHUNK == 0 && r < end + CHUNK
  {
    if had.Some? && 2 * had.value >= end then 2 * had.value else RoundChunk(end)
  }

  /** Lost is where the old contents do not fit the new block. */
  datatype Growth = Grown | NoMemory | Lost

  /** Near 2^32 the rounding wraps to 0. */
  lemma RoundsAway(end: nat)
    requires end < U32_LIMIT
    ensures end > U32_LIMIT - CHUNK ==> RoundChunk(end) == 0
    ensures end <= U32_LIMIT - CHUNK ==> RoundChunk(end) >= end
  {
    if end > U32_LIMIT - CHUNK { assert (end + CHUNK - 1) % U32_LIMIT == end + CHUNK - 1 - U32_LIMIT; }
  }

  lemma WrapEnd(at: nat, n: nat)
    requires at <= MAX_BUFFER && 0 < n < U32_LIMIT
    ensures at + n < U32_LIMIT ==> Wrap(at + n) == at + n
    ensures at + n >= U32_LIMIT ==> Wrap(at + n) == at + n - U32_LIMIT < at
  {
  }

  /** What is written is read back, and nothing else has changed. */
  lemma ReadAfterWrite(c: Cursor, b: seq<byte>)
    requires CursorOk(c)
    ensures
      var d := Overwritten(c, b);
      && CursorOk(d) && d.at == c.at + |b|
      && Ahead(Cursor(d.bytes, c.at), |b|) == b
      && d.bytes[..c.at] == c.bytes[..c.at]
      && |d.bytes| == (if c.at + |b| > |c.bytes| then c.at + |b| else |c.bytes|)
      && forall i :: c.at + |b| <= i < |c.bytes| ==> d.bytes[i] == c.bytes[i]
  {
  }

  /** Two writes in a row are one write of both. */
  lemma WritesJoin(c: Cursor, a: seq<byte>, b: seq<byte>)
    requires CursorOk(c)
    ensures CursorOk(Overwritten(c, a))
    ensures Overwritten(Overwritten(c, a), b) == Overwritten(c, a + b)
  {
    var d := Overwritten(c, a);
    assert d.bytes[..d.at] == c.bytes[..c.at] + a;
    if c.at + |a| + |b| <= |c.bytes| {
      assert d.bytes[d.at + |b|..] == c.bytes[c.at + |a| + |b|..];
    }
    assert c.bytes[..c.at] + a + b == c.bytes[..c.at] + (a + b);
  }

  // ----- the file

  class RamFile {
    var size: nat                  // dentry->size
    var allocSize: nat             // priv->alloc_size
    var data: Option<seq<byte>>    // priv->data: the heap block, or NULL
    var offset: nat                // file->offset
    var canRead: bool              // file->openmode & O_RDONLY
    var canWrite: bool             // file->openmode & O_WRONLY

    ghost var copied: nat          // bytes moved by regrowth since the last truncation

    /** The file fits its buffer, the buffer its heap block, and the handle points into the file. */
    ghost predicate Valid()
      reads this`size, this`allocSize, this`data, this`offset, this`copied
    {
      && offset <= size <= allocSize
      && (if data.None? then allocSize == 0 else allocSize <= |data.value| <= MAX_BUFFER)
      && copied <= allocSize
    }

    ghost function Contents(): (c: Cursor)
      requires Valid()
      reads this`size, this`allocSize, this`data, this`offset, this`copied
    {
      Cursor(if data.None? then [] else data.value[..size], offset)
    }

    /** A new file, not yet opened. */
    constructor ()
      ensures Valid() && Contents() == Cursor([], 0) && OldSize() == None && !canRead && !canWrite
    {
      canRead, canWrite := false, false;
      size, allocSize, data, offset, copied := 0, 0, None, 0, 0;
    }

    /** The end of vfs_dopen: a new handle at the start, or with O_APPEND at the end of the file.
        With O_TRUNC everything behind it goes. */
    method Open(read: bool, write: bool, append: bool, trunc: bool)
      requires Valid()
      modifies this
      ensures Valid() && canRead == read && canWrite == write
      ensures
        var bytes := old(Contents()).bytes;
        Contents() == if append then Cursor(bytes, |bytes|) else Cursor(if trunc then [] else bytes, 0)
      ensures trunc && !append ==> OldSize() == None
      ensures !trunc ==> OldSize() == old(OldSize())
    {
      canRead, canWrite := read, write;
      offset := if append then size else 0;
      if trunc {
        Truncate();
      }
    }

    /** ramfs_truncate */
    method Truncate()
      requires Valid()
      modifies this`size, this`allocSize, this`data, this`copied
      ensures Valid() && Contents() == Cursor(old(Contents()).bytes[..offset], offset)
      ensures offset == 0 ==> OldSize() == None
    {
      size := offset;
      allocSize := offset;
      if offset == 0 {
        data := None;
      }
      copied := 0;
    }

    ghost function OldSize(): Option<nat>
      reads this`data, this`allocSize
    {
      if data.None? then None else Some(allocSize)
    }

    /** vfs_read and ramfs_read, for every 32-bit count. */
    method Read(n: nat) returns (r: ReadResult)
      requires Valid() && n < U32_LIMIT
      modifies this`offset
      ensures Valid()
      ensures !canRead ==> r == Refused(EINVAL) && Contents() == old(Contents())
      ensures r.ReadOverrun? <==> canRead && n > 0 && old(offset) < size && old(offset) + n >= U32_LIMIT
      ensures canRead && !r.ReadOverrun? ==>
        && r == Bytes(Ahead(old(Contents()), n))
        && Contents() == Cursor(old(Contents()).bytes, old(Contents()).at + |r.bytes|)
    {
      hide Wrap;
      if !canRead {
        return Refused(EINVAL);
      }
      if n == 0 || offset >= size {
        return Bytes([]);
      }
      ReadStaysIff(Contents(), n);
      var count := n;
      if Wrap(offset + n) > size {
        count := size - offset;
      }
      if offset + count > |data.value| {
        return ReadOverrun;
      }
      r := Bytes(data.value[offset..offset + count]);
      offset := offset + count;
    }

    /** vfs_write and ramfs_write, for every 32-bit count. Without an overrun the bytes are in the
        file, or kmalloc has refused the block that they need and nothing has changed. A write leaves
        its block if its end wraps, or if the end does not but its rounding does, and kmalloc grants
        the 0 bytes that it is then asked for. */
    method Write(buf: seq<byte>, block: Kmalloc) returns (r: Result)
      requires Valid() && |buf| < U32_LIMIT && KmallocOk(block)
      modifies this`size, this`allocSize, this`data, this`offset, this`copied
      ensures
        var end, some := old(offset) + |buf|, canWrite && buf != [];
        r.Overrun? <==> some && (end >= U32_LIMIT || (end > U32_LIMIT - CHUNK && block(0).Some?))
      ensures !r.Overrun? ==> Valid()
      ensures r.Ok? ==> r.count == |buf| && Contents() == Overwritten(old(Contents()), buf)
      ensures r.Error? ==> Contents() == old(Contents()) && copied == old(copied) && allocSize == old(allocSize)
      ensures
        var end := old(offset) + |buf|;
        var refused := old(allocSize) < end < U32_LIMIT && block(Wanted(old(OldSize()), end)).None?;
        r.Error? <==> !canWrite || (buf != [] && refused)
      ensures r.Error? ==> r.code == if canWrite then ENOMEM else EINVAL
      ensures !r.Overrun? && allocSize == old(allocSize) ==> copied == old(copied)
    {
      hide Wrap, RoundChunk, KmallocOk;
      if !canWrite {
        return Error(EINVAL);
      }
      if |buf| == 0 {
        return Ok(0);
      }
      var end := Wrap(offset + |buf|);
      WrapEnd(offset, |buf|);
      RoundsAway(end);
      if end > allocSize {
        var g := Regrow(end, block);
        if !g.Grown? {
          return if g.NoMemory? then Error(ENOMEM) else Overrun;
        }
      }
      if offset + |buf| > |data.value| {
        return Overrun;
      }
      CopyIn(buf);
      return Ok(|buf|);
    }

    /** The end of ramfs_write and vfs_write, for bytes that fit. */
    method CopyIn(buf: seq<byte>)
      requires Valid() && data.Some? && offset + |buf| <= allocSize
      modifies this`size, this`data, this`offset
      ensures Valid() && Contents() == Overwritten(old(Contents()), buf)
    {
      var end := offset + |buf|;
      if size < end {
        size := end;
      }
      data := Some(data.value[..offset] + buf + data.value[end..]);
      offset := end;
    }

    /** The allocation part of ramfs_write. */
    method Regrow(end: nat, block: Kmalloc) returns (g: Growth)
      requires Valid() && allocSize < end < U32_LIMIT && KmallocOk(block)
      modifies this`data, this`allocSize, this`copied
      ensures g.NoMemory? <==> block(Wanted(old(OldSize()), end)).None?
      ensures g.NoMemory? ==> Valid() && Contents() == old(Contents()) && copied == old(copied)
      ensures g.NoMemory? ==> allocSize == old(allocSize)
      ensures g.Lost? ==> end > U32_LIMIT - CHUNK
      ensures g.Grown? ==> data.Some? && |data.value| <= MAX_BUFFER
      ensures g.Grown? && end <= U32_LIMIT - CHUNK ==>
        Valid() && Contents() == old(Contents()) && end <= allocSize && allocSize != old(allocSize)
    {
      hide Wrap, RoundChunk;
      RoundsAway(end);
      if data.None? {
        var wanted := RoundChunk(end);
        var p := block(wanted);
        data := p;
        if data.None? {
          return NoMemory;
        }
        allocSize := wanted;
      } else {
        var wanted := Wrap(allocSize * 2);
        if wanted < end {
          wanted := RoundChunk(end);
        }
        var p := block(wanted);
        if p.None? {
          return NoMemory;
        }
        if size > |p.value| {
          return Lost;
        }
        data := Some(data.value[..size] + p.value[size..]);
        copied := copied + size;
        allocSize := wanted;
      }
      return Grown;
    }

    /** vfs_lseek: the file position moves, or nothing happens. The offset counts from the start, the
        position or the end; from 2^31 on it stands for a negative one. */
    method Seek(offset0: nat, whence: Whence) returns (r: Result)
      requires Valid() && offset0 < U32_LIMIT
      modifies this`offset
      ensures Valid()
      ensures
        var c := old(Contents());
        var target := Signed32(offset0) + if whence.End? then |c.bytes| else if whence.Cur? then c.at else 0;
        if !whence.Other? && 0 <= target <= |c.bytes| then r == Ok(target) && Contents() == Cursor(c.bytes, target)
        else r == Error(EINVAL) && Contents() == c
    {
      hide Wrap;
      var target := offset0;
      if whence.Other? {
        return Error(EINVAL);
      }
      if whence.End? {
        target := Wrap(target + (size - offset));
        WrapTwice(offset0 + (size - offset), offset);
      }
      if whence.End? || whence.Cur? {
        target := Wrap(target + offset);
      }
      SeekWraps(offset0, if whence.End? then size else if whence.Cur? then offset else 0, size);
      if target > size {
        return Error(EINVAL);
      }
      offset := target;
      return Ok(target);
    }
  }

  // ----- uses

  /** A write through a handle opened with O_APPEND, with or without O_TRUNC, appends. */
  method AppendOpened(f: RamFile, trunc: bool, buf: seq<byte>, block: Kmalloc) returns (r: Result)
    requires f.Valid() && |buf| < U32_LIMIT && KmallocOk(block)
    modifies f
    ensures r.Ok? ==> f.Valid() && f.Contents().bytes == old(f.Contents()).bytes + buf
  {
    f.Open(false, true, true, trunc);
    r := f.Write(buf, block);
  }

  /** So does a write behind a seek to the end. */
  method AppendSought(f: RamFile, buf: seq<byte>, block: Kmalloc) returns (r: Result)
    requires f.Valid() && |buf| < U32_LIMIT && KmallocOk(block)
    modifies f
    ensures r.Ok? ==> f.Valid() && f.Contents().bytes == old(f.Contents()).bytes + buf
  {
    var end := f.Seek(0, End);
    r := f.Write(buf, block);
  }

  /** A seek by nothing tells the position. */
  method Tell(f: RamFile) returns (at: nat)
    requires f.Valid()
    modifies f`offset
    ensures f.Valid() && at == old(f.Contents()).at && f.Contents() == old(f.Contents())
  {
    var r := f.Seek(0, Cur);
    at := r.count;
  }

  /** The offset 2^32 - k moves the position back by k, and k on again. */
  method BackAndForth(f: RamFile, k: nat) returns (back: Result, forth: Result)
    requires f.Valid() && 0 < k <= f.Contents().at
    modifies f`offset
    ensures back == Ok(old(f.Contents()).at - k) && forth == Ok(old(f.Contents()).at)
    ensures f.Valid() && f.Contents() == old(f.Contents())
  {
    back := f.Seek(U32_LIMIT - k, Cur);
    forth := f.Seek(k, Cur);
  }

  /** A read of at least what is left gives exactly that, and the cursor is then at the end. */
  method ReadRest(f: RamFile, n: nat) returns (r: ReadResult)
    requires f.Valid() && f.canRead && |f.Contents().bytes| - f.Contents().at <= n < U32_LIMIT - MAX_BUFFER
    modifies f`offset
    ensures f.Valid() && r == Bytes(old(f.Contents()).bytes[old(f.Contents()).at..])
    ensures f.Contents() == Cursor(old(f.Contents()).bytes, |old(f.Contents()).bytes|)
  {
    r := f.Read(n);
  }

  /** Both overruns are reached from a new file: a read of 2^32 - 1 bytes at position 1 of 2 bytes,
      and a write of as many there. */
  method OverrunsHappen(block: Kmalloc) returns (r: ReadResult, w: Result)
    requires KmallocOk(block) && block(CHUNK).Some?
    ensures r.ReadOverrun? && w.Overrun?
  {
    assert RoundChunk(2) == CHUNK;
    var f := new RamFile();
    f.Open(true, true, false, false);
    var two := f.Write([7, 7], block);
    assert f.Contents() == Cursor([7, 7], 2);
    var one := f.Seek(1, Set);
    r := f.Read(U32_LIMIT - 1);
    one := f.Seek(1, Set);
    w := f.Write(seq(U32_LIMIT - 1, _ => 0), block);
  }
}
