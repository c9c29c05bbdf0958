// The read-only file system of student-distrib/filesystem.c: a boot block with a
// directory, one block per inode, then the data blocks, all in one image of 4096-byte
// blocks. A file is meant to be the concatenation of its blocks, cut to its length.

module FileSystem {
  import opened Memory

  const BLOCK := 4096
  const NAME := 32
  const MAX_BLOCKS := 1023
  const MAX_ENTRIES := 63

  datatype Option<T> = None | Some(value: T)

  datatype Dentry = Dentry(name: seq<Byte>, fileType: nat, inode: nat)

  /** A little-endian 32-bit field. */
  function U32(img: seq<Byte>, at: nat): nat
    requires at + 4 <= |img|
  {
    img[at] as int + 0x100 * img[at + 1] as int + 0x1_0000 * img[at + 2] as int + 0x100_0000 * img[at + 3] as int
  }

  function NumEntries(img: seq<Byte>): nat
    requires |img| >= BLOCK
  {
    U32(img, 0)
  }

  function NumInodes(img: seq<Byte>): nat
    requires |img| >= BLOCK
  {
    U32(img, 4)
  }

  function Length(img: seq<Byte>, inode: nat): nat
    requires BLOCK * (inode + 2) <= |img|
  {
    U32(img, BLOCK * (inode + 1))
  }

  /** Number in the data area of the k-th block of a file. */
  function BlockNumber(img: seq<Byte>, inode: nat, k: nat): nat
    requires BLOCK * (inode + 2) <= |img| && k < MAX_BLOCKS
  {
    U32(img, BLOCK * (inode + 1) + 4 * (k + 1))
  }

  /** Where the k-th block of a file starts in the image. */
  function BlockStart(img: seq<Byte>, inode: nat, k: nat): nat
    requires BLOCK * (inode + 2) <= |img| && k < MAX_BLOCKS
  {
    BLOCK * (NumInodes(img) + 1 + BlockNumber(img, inode, k))
  }

  function BlocksUsed(img: seq<Byte>, inode: nat): nat
    requires BLOCK * (inode + 2) <= |img|
  {
    (Length(img, inode) + BLOCK - 1) / BLOCK
  }

  ghost predicate WellFormedInode(img: seq<Byte>, inode: nat) {
    BLOCK * (inode + 2) <= |img| && BlocksUsed(img, inode) <= MAX_BLOCKS &&
    forall k :: 0 <= k < BlocksUsed(img, inode) ==> BlockStart(img, inode, k) + BLOCK <= |img|
  }

  ghost predicate WellFormed(img: seq<Byte>) {
    |img| >= BLOCK && NumEntries(img) <= MAX_ENTRIES &&
    forall i :: 0 <= i < NumInodes(img) ==> WellFormedInode(img, i)
  }

  /** Where the blocks of a file start, in inode order. */
  ghost function Starts(img: seq<Byte>, inode: nat): (r: seq<nat>)
    requires WellFormedInode(img, inode)
    ensures |r| == BlocksUsed(img, inode) && Inside(img, r)
    ensures forall k :: 0 <= k < |r| ==> r[k] == BlockStart(img, inode, k)
  {
    seq(BlocksUsed(img, inode), k requires 0 <= k < BlocksUsed(img, inode) => BlockStart(img, inode, k))
  }

  ghost predicate Inside(img: seq<Byte>, starts: seq<nat>) {
    forall k :: 0 <= k < |starts| ==> starts[k] + BLOCK <= |img|
  }

  /** The blocks at `starts`, one after the other. */
  ghost function Gather(img: seq<Byte>, starts: seq<nat>): (r: seq<Byte>)
    requires Inside(img, starts)
    ensures |r| == BLOCK * |starts|
  {
    if starts == [] then []
    else
      var last := |starts| - 1;
      Gather(img, starts[..last]) + img[starts[last]..starts[last] + BLOCK]
  }

  /** The contents of a file; empty for a number that is no inode. */
  ghost function File(img: seq<Byte>, inode: nat): (r: seq<Byte>)
    requires WellFormed(img)
    ensures inode < NumInodes(img) ==> WellFormedInode(img, inode) && |r| == Length(img, inode)
  {
    if inode >= NumInodes(img) then []
    else
      assert WellFormedInode(img, inode);
      Gather(img, Starts(img, inode))[..Length(img, inode)]
  }

  lemma {:induction false} BlockWithin(img: seq<Byte>, starts: seq<nat>, j: nat)
    requires Inside(img, starts) && j < |starts|
    ensures Gather(img, starts)[BLOCK * j..BLOCK * j + BLOCK] == img[starts[j]..starts[j] + BLOCK]
  {
    var last := |starts| - 1;
    var init := Gather(img, starts[..last]);
    if j < last {
      BlockWithin(img, starts[..last], j);
      SliceOfSlice(Gather(img, starts), 0, BLOCK * last, BLOCK * j, BLOCK * j + BLOCK);
      assert Gather(img, starts)[..BLOCK * last] == init;
    } else {
      assert (init + img[starts[j]..starts[j] + BLOCK])[BLOCK * j..] == img[starts[j]..starts[j] + BLOCK];
    }
  }

  /** Bytes `pos` to `end` of a file, when they fall inside its block `j`, lie in one piece in the image. */
  lemma FilePiece(img: seq<Byte>, inode: nat, file: seq<Byte>, j: nat, pos: nat, end: nat, start: nat)
    requires WellFormed(img) && inode < NumInodes(img) && WellFormedInode(img, inode) && file == File(img, inode)
    requires BLOCK * j <= pos < end <= |file| && end <= BLOCK * (j + 1)
    requires j < BlocksUsed(img, inode) && start == BlockStart(img, inode, j) + (pos - BLOCK * j)
    ensures InOnePiece(file, pos, end, img, start)
  {
    GatherPiece(img, Starts(img, inode), |file|, j, pos, end, start);
  }

  lemma BlockInFile(img: seq<Byte>, inode: nat, j: nat)
    requires WellFormed(img) && inode < NumInodes(img) && BLOCK * j < |File(img, inode)|
    ensures WellFormedInode(img, inode) && j < BlocksUsed(img, inode) <= MAX_BLOCKS
  {
    assert WellFormedInode(img, inode);
    BlockCounted(|File(img, inode)|, j);
  }

  ghost predicate InOnePiece(file: seq<Byte>, pos: nat, end: nat, img: seq<Byte>, start: nat)
    requires pos <= end <= |file|
  {
    start + (end - pos) <= |img| && file[pos..end] == img[start..start + (end - pos)]
  }

  lemma GatherPiece(img: seq<Byte>, starts: seq<nat>, length: nat, j: nat, pos: nat, end: nat, start: nat)
    requires Inside(img, starts) && j < |starts| && length <= BLOCK * |starts|
    requires BLOCK * j <= pos <= end <= length && end <= BLOCK * (j + 1)
    requires start == starts[j] + (pos - BLOCK * j)
    ensures InOnePiece(Gather(img, starts)[..length], pos, end, img, start)
  {
    BlockWithin(img, starts, j);
    PieceOf(Gather(img, starts), length, img, BLOCK * j, starts[j], pos, end);
  }

  lemma BlockCounted(length: nat, j: nat)
    requires BLOCK * j < length
    ensures j < (length + BLOCK - 1) / BLOCK
  {
  }

  lemma PieceOf(all: seq<Byte>, length: nat, img: seq<Byte>, a: nat, start: nat, pos: nat, end: nat)
    requires a + BLOCK <= |all| && start + BLOCK <= |img| && a <= pos <= end <= a + BLOCK && end <= length <= |all|
    requires all[a..a + BLOCK] == img[start..start + BLOCK]
    ensures InOnePiece(all[..length], pos, end, img, start + (pos - a))
  {
    SliceOfSlice(all, 0, length, pos, end);
    SliceOfSlice(all, a, a + BLOCK, pos - a, end - a);
    SliceOfSlice(img, start, start + BLOCK, pos - a, end - a);
  }

  lemma BlockByte(img: seq<Byte>, inode: nat, file: seq<Byte>, j: nat, o: nat)
    requires WellFormed(img) && inode < NumInodes(img) && WellFormedInode(img, inode) && file == File(img, inode)
    requires BLOCK * j + o < |file| && o < BLOCK
    ensures j < MAX_BLOCKS && BlockStart(img, inode, j) + o < |img|
    ensures file[BLOCK * j + o] == img[BlockStart(img, inode, j) + o]
  {
    var i, start := BLOCK * j + o, BlockStart(img, inode, j) + o;
    BlockCounted(|file|, j);
    FilePiece(img, inode, file, j, i, i + 1, start);
    assert file[i..i + 1][0] == file[i] && img[start..start + 1][0] == img[start];
  }

  /**
    Byte `o` of block `j` of a file is byte `o` of the data block that word 1 + j of its inode names; data
    blocks come after the boot block and the inodes.
   */
  lemma FileByte(img: seq<Byte>, inode: nat, j: nat, o: nat)
    requires WellFormed(img) && inode < U32(img, 4) && 4096 * j + o < |File(img, inode)| && o < 4096
    ensures j < 1023 && 4096 * (inode + 2) <= |img| && |File(img, inode)| == U32(img, 4096 * (inode + 1))
    ensures var at := 4096 * (1 + U32(img, 4) + U32(img, 4096 * (inode + 1) + 4 + 4 * j)) + o;
      at < |img| && File(img, inode)[4096 * j + o] == img[at]
  {
    assert WellFormedInode(img, inode);
    BlockByte(img, inode, File(img, inode), j, o);
    assert 4 * (j + 1) == 4 + 4 * j;
  }

  /** The number read_data returns for a buffer that exists: -1 for a bad inode or an offset past the end. */
  ghost function ReadResult(img: seq<Byte>, inode: nat, offset: nat, length: nat): (r: int)
    requires WellFormed(img)
    ensures r >= 0 ==> offset + r <= |File(img, inode)| && r <= length
  {
    if inode >= NumInodes(img) || offset > |File(img, inode)| then -1
    else if length < |File(img, inode)| - offset then length
    else |File(img, inode)| - offset
  }

  /** It fails exactly for a number that is no inode or an offset past the end; else it says how much there is. */
  lemma ReadFailsIff(img: seq<Byte>, inode: nat, offset: nat, length: nat)
    requires WellFormed(img)
    ensures ReadResult(img, inode, offset, length) == -1 <==> inode >= U32(img, 4) || offset > |File(img, inode)|
    ensures ReadResult(img, inode, offset, length) != -1 ==>
      ReadResult(img, inode, offset, length) ==
        if offset + length <= |File(img, inode)| then length else |File(img, inode)| - offset
  {
  }

  /** `buf` is `was` with the `done` bytes of the file from `offset` stored at `at`. */
  ghost predicate ReadSoFar(buf: seq<Byte>, was: seq<Byte>, at: nat, file: seq<Byte>, offset: nat, done: nat) {
    offset + done <= |file| && at + done <= |was| && buf == Blit(was, at, file[offset..offset + done])
  }

  lemma ReadGrows(buf: seq<Byte>, now: seq<Byte>, was: seq<Byte>, at: nat, file: seq<Byte>, offset: nat, done: nat,
                  n: nat)
    requires ReadSoFar(buf, was, at, file, offset, done)
    requires offset + done + n <= |file| && at + done + n <= |was|
    requires now == Blit(buf, at + done, file[offset + done..offset + done + n])
    ensures ReadSoFar(now, was, at, file, offset, done + n)
  {
    BlitAppend(was, at, file[offset..offset + done], file[offset + done..offset + done + n]);
    assert file[offset..offset + done] + file[offset + done..offset + done + n] == file[offset..offset + (done + n)];
  }

  /** The address arithmetic of read_data: `n` bytes of the file from `pos`, which is byte `off` of block `j`. */
  method CopyStart(img: array<Byte>, inode: nat, j: nat, off: nat, ghost pos: nat, ghost n: nat,
                   ghost image: seq<Byte>, ghost file: seq<Byte>)
      returns (start: nat)
    requires image == img[..] && WellFormed(image) && inode < NumInodes(image) && file == File(image, inode)
    requires BLOCK * j + off == pos && 0 < n && pos + n <= |file| && off + n <= BLOCK
    ensures InOnePiece(file, pos, pos + n, image, start)
  {
    BlockInFile(image, inode, j);
    start := BlockStart(img[..], inode, j) + off;
    assert pos + n <= BLOCK * (j + 1);
    FilePiece(image, inode, file, j, pos, pos + n, start);
  }

  /** One copy of read_data: `n` bytes after the first `done`, from byte `off` of block `j` on. */
  method CopyPiece(img: array<Byte>, inode: nat, j: nat, off: nat, buf: array<Byte>, at: nat, done: nat, n: nat,
                   base: nat, ghost image: seq<Byte>, ghost file: seq<Byte>, ghost was: seq<Byte>, ghost offset: nat)
    requires image == img[..] && WellFormed(image) && img != buf && inode < NumInodes(image)
    requires file == File(image, inode) && BLOCK * j + off == offset + done && 0 < n && off + n <= BLOCK
    requires offset + done + n <= |file| && at + done + n <= buf.Length == |was|
    requires ReadSoFar(buf[..], was, at, file, offset, done)
    modifies buf
    ensures ReadSoFar(buf[..], was, at, file, offset, done + n)
  {
    ghost var before := buf[..];
    var start := CopyStart(img, inode, j, off, offset + done, n, image, file);
    assert img[start..start + n] == image[start..start + n];
    Memcpy(buf, at + done, img, start, n, base);
    ReadGrows(before, buf[..], was, at, file, offset, done, n);
  }

  /** The copy loop of read_data; `base` is the address of `buf[0]`. */
  method CopyBlocks(img: array<Byte>, inode: nat, offset: nat, buf: array<Byte>, at: nat, copyLength: nat, base: nat,
                    ghost image: seq<Byte>)
    requires image == img[..] && WellFormed(image) && img != buf && inode < NumInodes(image)
    requires offset + copyLength <= |File(image, inode)| && at + copyLength <= buf.Length
    modifies buf
    ensures buf[..] == Blit(old(buf[..]), at, File(image, inode)[offset..offset + copyLength])
  {
    ghost var was := buf[..];
    var index: nat, blockOffset: nat, copied: nat := offset / BLOCK, offset % BLOCK, 0;
    while copied < copyLength
      invariant copied <= copyLength && image == img[..] && buf.Length == |was|
      invariant copied < copyLength ==> BLOCK * index + blockOffset == offset + copied && blockOffset < BLOCK
      invariant ReadSoFar(buf[..], was, at, File(image, inode), offset, copied)
    {
      var rest := copyLength - copied;
      var copyLen := if BLOCK - blockOffset < rest then BLOCK - blockOffset else rest;
      CopyPiece(img, inode, index, blockOffset, buf, at, copied, copyLen, base, image, File(image, inode), was, offset);
      index := index + 1;
      copied := copied + copyLen;
      blockOffset := 0;
    }
  }

  /** read_data into `buf` from index `at` on. */
  method ReadData(img: array<Byte>, inode: nat, offset: nat, buf: array?<Byte>, at: nat, length: nat, base: nat)
      returns (r: int)
    requires WellFormed(img[..]) && img != buf
    requires buf != null ==> at <= buf.Length && at + ReadResult(img[..], inode, offset, length) <= buf.Length
    modifies buf
    ensures r == if buf == null then -1 else ReadResult(img[..], inode, offset, length)
    ensures buf != null && r < 0 ==> buf[..] == old(buf[..])
    ensures buf != null && r >= 0 ==> buf[..] == Blit(old(buf[..]), at, File(img[..], inode)[offset..offset + r])
  {
    if buf == null || inode >= NumInodes(img[..]) {
      return -1;
    }
    assert WellFormedInode(img[..], inode);
    var fileLength := Length(img[..], inode);
    if offset == fileLength {
      return 0;
    }
    if offset > fileLength {
      return -1;
    }
    var copyLength := if length < fileLength - offset then length else fileLength - offset;
    CopyBlocks(img, inode, offset, buf, at, copyLength, base, img[..]);
    r := copyLength;
  }

  /** Reading n bytes and then m more is reading n + m. */
  lemma ReadsCompose(img: seq<Byte>, inode: nat, offset: nat, n: nat, m: nat)
    requires WellFormed(img) && ReadResult(img, inode, offset, n) >= 0
    ensures var r := ReadResult(img, inode, offset, n);
      var s := ReadResult(img, inode, offset + r, m);
      s >= 0 && ReadResult(img, inode, offset, n + m) == r + s &&
      File(img, inode)[offset..offset + r] + File(img, inode)[offset + r..offset + r + s] ==
      File(img, inode)[offset..offset + (r + s)]
  {
  }

  /** fileRead: the next bytes of the file, and the position after them. */
  method FileRead(img: array<Byte>, inode: nat, pos: nat, buf: array<Byte>, at: nat, n: nat) returns (r: int, next: nat)
    requires WellFormed(img[..]) && img != buf && at <= buf.Length
    requires at + ReadResult(img[..], inode, pos, n) <= buf.Length
    modifies buf
    ensures r == ReadResult(img[..], inode, pos, n)
    ensures r < 0 ==> next == pos && buf[..] == old(buf[..])
    ensures r >= 0 ==> next == pos + r && buf[..] == Blit(old(buf[..]), at, File(img[..], inode)[pos..next])
  {
    r := ReadData(img, inode, pos, buf, at, n, 0);
    if r == -1 {
      return -1, pos;
    }
    next := pos + r;
  }

  /** An open regular file and its position, as a program that reads it sees them. */
  class OpenFile {
    const img: array<Byte>
    const inode: nat
    var pos: nat

    constructor (img: array<Byte>, inode: nat)
      ensures this.img == img && this.inode == inode && pos == 0
    {
      this.img, this.inode, pos := img, inode, 0;
    }

    ghost predicate Valid()
      reads this, img
    {
      WellFormed(img[..]) && pos <= |File(img[..], inode)|
    }

    ghost function Bytes(): seq<Byte>
      requires Valid()
      reads this, img
    {
      File(img[..], inode)
    }

    method Read(buf: array<Byte>, at: nat, n: nat) returns (cnt: int)
      requires Valid() && buf != img && at + n <= buf.Length
      modifies this`pos, buf
      ensures Valid() && img[..] == old(img[..])
      ensures cnt == ReadResult(img[..], inode, old(pos), n)
      ensures cnt < 0 ==> pos == old(pos) && buf[..] == old(buf[..])
      ensures cnt >= 0 ==> pos == old(pos) + cnt && buf[..] == Blit(old(buf[..]), at, Bytes()[old(pos)..pos])
    {
      cnt, pos := FileRead(img, inode, pos, buf, at, n);
    }
  }

  // ---- Names ----

  /** A C string of at most `n` characters: what comes before the first NUL. */
  function CString(s: seq<Byte>, n: nat): (r: seq<Byte>)
    ensures r <= s && |r| <= n && 0 !in r
    ensures |r| == n || |r| == |s| || s[|r|] == 0
  {
    if n == 0 || s == [] || s[0] == 0 then [] else [s[0]] + CString(s[1..], n - 1)
  }

  /** A string as the kernel may scan it: it ends in a NUL or has `n` characters. */
  predicate Scannable(s: seq<Byte>, n: nat) {
    0 in s || n <= |s|
  }

  function Signed(b: Byte): int {
    if b < 128 then b else b - 256
  }

  /** strncmp: zero exactly when the two strings agree as C strings of at most `n` characters. */
  method Strncmp(s1: seq<Byte>, s2: seq<Byte>, n: nat) returns (d: int)
    requires Scannable(s1, n) && Scannable(s2, n)
    ensures d == 0 <==> CString(s1, n) == CString(s2, n)
  {
    for i := 0 to n
      invariant i <= |s1| && i <= |s2| && s1[..i] == s2[..i] && 0 !in s1[..i]
    {
      assert i < |s1| && i < |s2|;
      if s1[i] != s2[i] || s1[i] == 0 {
        CStringsMeet(s1, s2, n, i);
        return Signed(s1[i]) - Signed(s2[i]);
      }
      assert s1[..i + 1] == s1[..i] + [s1[i]] && s2[..i + 1] == s2[..i] + [s2[i]];
    }
    CStringsMeet(s1, s2, n, n);
    return 0;
  }

  /** Two strings alike and free of NUL up to `i`, where the comparison ends. */
  lemma CStringsMeet(s: seq<Byte>, t: seq<Byte>, n: nat, i: nat)
    requires i <= n && i <= |s| && i <= |t| && s[..i] == t[..i] && 0 !in s[..i]
    requires i < n ==> i < |s| && i < |t| && (s[i] != t[i] || s[i] == 0)
    ensures CString(s, n) == CString(t, n) <==> (i == n || s[i] == t[i])
  {
    StopsAfter(s, n, i);
    StopsAfter(t, n, i);
    var a, b := CString(s, n), CString(t, n);
    assert a[..i] == s[..i] && b[..i] == t[..i];
    assert |a| == i ==> a[..i] == a;
    assert |b| == i ==> b[..i] == b;
    assert |a| > i ==> a[i] == s[i];
    assert |b| > i ==> b[i] == t[i];
  }

  lemma StopsAfter(s: seq<Byte>, n: nat, i: nat)
    requires i <= n && i <= |s| && 0 !in s[..i]
    ensures |CString(s, n)| >= i
    ensures i < |s| && s[i] == 0 ==> |CString(s, n)| == i
  {
    var r := CString(s, n);
    assert forall k :: 0 <= k < i ==> s[k] == s[..i][k] != 0;
    assert forall k :: 0 <= k < |r| ==> s[k] == r[k] != 0;
  }

  function Entry(img: seq<Byte>, i: nat): (d: Dentry)
    requires |img| >= BLOCK && i < MAX_ENTRIES
    ensures |d.name| == NAME
  {
    var at := 64 * (i + 1);
    Dentry(img[at..at + NAME], U32(img, at + 32), U32(img, at + 36))
  }

  ghost predicate Named(img: seq<Byte>, i: nat, name: seq<Byte>)
    requires |img| >= BLOCK && i < MAX_ENTRIES
  {
    CString(Entry(img, i).name, NAME) == CString(name, NAME)
  }

  /** The first directory entry from `i` on with the given name, or the number of entries. */
  ghost function FirstNamed(img: seq<Byte>, name: seq<Byte>, i: nat): (r: nat)
    requires |img| >= BLOCK && i <= NumEntries(img) <= MAX_ENTRIES
    ensures i <= r <= NumEntries(img)
    ensures r < NumEntries(img) ==> Named(img, r, name)
    ensures forall k :: i <= k < r ==> !Named(img, k, name)
    decreases NumEntries(img) - i
  {
    if i == NumEntries(img) || Named(img, i, name) then i else FirstNamed(img, name, i + 1)
  }

  ghost function Lookup(img: seq<Byte>, name: seq<Byte>): Option<Dentry>
    requires WellFormed(img)
  {
    var i := FirstNamed(img, name, 0);
    if i == NumEntries(img) then None else Some(Entry(img, i))
  }

  /** read_dentry_by_name. */
  method ReadDentryByName(img: array<Byte>, name: seq<Byte>) returns (d: Option<Dentry>)
    requires WellFormed(img[..]) && Scannable(name, NAME)
    ensures d == Lookup(img[..], name)
  {
    for i := 0 to NumEntries(img[..])
      invariant FirstNamed(img[..], name, 0) == FirstNamed(img[..], name, i)
    {
      var entry := Entry(img[..], i);
      var c := Strncmp(name, entry.name, NAME);
      if c == 0 {
        return Some(entry);
      }
    }
    return None;
  }

  /** read_dentry_by_index. */
  method ReadDentryByIndex(img: array<Byte>, index: nat) returns (d: Option<Dentry>)
    requires WellFormed(img[..])
    ensures d == if index < NumEntries(img[..]) then Some(Entry(img[..], index)) else None
  {
    if index >= NumEntries(img[..]) {
      return None;
    }
    return Some(Entry(img[..], index));
  }
}
