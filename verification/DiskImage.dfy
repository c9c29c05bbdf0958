// Disk images, written out byte by byte: the boot block with its directory, one block of
// words per inode, and the data blocks. Reading an image with the functions of module
// FileSystem gives back the names and files it was made of.

module DiskImage {
  import opened Memory
  import opened FileSystem

  datatype DirEntry = DirEntry(name: seq<Byte>, fileType: nat, inode: nat)

  /**
    The directory, the contents of each file in inode order, the numbers of each file's data blocks,
    and how many data blocks there are.
   */
  datatype Disk = Disk(entries: seq<DirEntry>, files: seq<seq<Byte>>, numbers: seq<seq<nat>>, blocks: nat)

  const WORD := 0x1_0000_0000

  /** Data block `n` is block `j` of file `f`. */
  predicate IsBlock(d: Disk, f: nat, j: nat, n: nat) {
    f < |d.numbers| && j < |d.numbers[f]| && d.numbers[f][j] == n
  }

  predicate FitsEntry(e: DirEntry) {
    |e.name| <= 32 && 0 !in e.name && e.fileType < WORD && e.inode < WORD
  }

  /** How many blocks of 4096 bytes a file takes. */
  function BlockCount(file: seq<Byte>): nat {
    (|file| + 4095) / 4096
  }

  predicate FitsFile(file: seq<Byte>, numbers: seq<nat>, blocks: nat) {
    |file| <= 1023 * 4096 && |numbers| == BlockCount(file) && forall j :: 0 <= j < |numbers| ==> numbers[j] < blocks
  }

  /** No data block belongs to two files or twice to one. */
  ghost predicate Injective(d: Disk) {
    forall f: nat, j: nat, g: nat, k: nat, n: nat :: IsBlock(d, f, j, n) && IsBlock(d, g, k, n) ==> f == g && j == k
  }

  /** The disk is within the limits of the layout. */
  ghost predicate Fits(d: Disk) {
    |d.entries| <= 63 && |d.files| == |d.numbers| < WORD && d.blocks < WORD && Injective(d) &&
    (forall k :: 0 <= k < |d.entries| ==> FitsEntry(d.entries[k])) &&
    (forall k, l :: 0 <= k < l < |d.entries| ==> d.entries[k].name != d.entries[l].name) &&
    forall f :: 0 <= f < |d.files| ==> FitsFile(d.files[f], d.numbers[f], d.blocks)
  }

  // ---- The bytes of an image ----

  /** Byte `k` of a 32-bit word, lowest first. */
  function ByteOf(w: nat, k: nat): Byte {
    if k == 0 then w % 0x100 else ByteOf(w / 0x100, k - 1)
  }

  lemma LittleEndian(w: nat)
    requires w < WORD
    ensures ByteOf(w, 0) + 0x100 * ByteOf(w, 1) + 0x1_0000 * ByteOf(w, 2) + 0x100_0000 * ByteOf(w, 3) == w
  {
    var a := w / 0x100;
    var b := a / 0x100;
    var c := b / 0x100;
    assert w == 0x100 * a + w % 0x100 && a == 0x100 * b + a % 0x100 && b == 0x100 * c + b % 0x100 && c < 0x100;
    assert ByteOf(c, 0) == c && ByteOf(b, 1) == c && ByteOf(a, 2) == c && ByteOf(w, 3) == c;
    assert ByteOf(b, 0) == b % 0x100 && ByteOf(a, 1) == b % 0x100 && ByteOf(w, 2) == b % 0x100;
    assert ByteOf(a, 0) == a % 0x100 && ByteOf(w, 1) == a % 0x100;
  }

  /** Byte `o` of a 64-byte directory entry: the name, the type and the inode number, the rest unused. */
  function EntryByte(e: DirEntry, o: nat): Byte {
    if o < 32 then if o < |e.name| then e.name[o] else 0
    else if o < 36 then ByteOf(e.fileType, o - 32)
    else if o < 40 then ByteOf(e.inode, o - 36)
    else 0
  }

  /** Byte `o` of the boot block: three counts, then the entries from byte 64 on. */
  function BootByte(d: Disk, o: nat): Byte {
    if o < 4 then ByteOf(|d.entries|, o)
    else if o < 8 then ByteOf(|d.files|, o - 4)
    else if o < 12 then ByteOf(d.blocks, o - 8)
    else if o < 64 || o / 64 - 1 >= |d.entries| then 0
    else EntryByte(d.entries[o / 64 - 1], o % 64)
  }

  /** Word `k` of an inode: the length, then the numbers of the data blocks in order. */
  function InodeWord(d: Disk, f: nat, k: nat): nat
    requires f < |d.files| == |d.numbers|
  {
    if k == 0 then |d.files[f]| else if k - 1 < |d.numbers[f]| then d.numbers[f][k - 1] else 0
  }

  /** Byte `o` of data block `n`; what no file uses is 0. */
  ghost function DataByte(d: Disk, n: nat, o: nat): Byte {
    if exists f: nat, j: nat :: IsBlock(d, f, j, n) then
      var f: nat, j: nat :| IsBlock(d, f, j, n);
      if f < |d.files| && 4096 * j + o < |d.files[f]| then d.files[f][4096 * j + o] else 0
    else 0
  }

  ghost function ImageByte(d: Disk, i: nat): Byte
    requires |d.files| == |d.numbers|
  {
    var block, o := i / 4096, i % 4096;
    if block == 0 then BootByte(d, o)
    else if block <= |d.files| then ByteOf(InodeWord(d, block - 1, o / 4), o % 4)
    else DataByte(d, block - 1 - |d.files|, o)
  }

  ghost function Image(d: Disk): (img: seq<Byte>)
    requires Fits(d)
    ensures Holds(img, d)
  {
    seq(4096 * (1 + |d.files| + d.blocks), i requires 0 <= i => ImageByte(d, i))
  }

  ghost predicate Holds(img: seq<Byte>, d: Disk) {
    Fits(d) && |img| == 4096 * (1 + |d.files| + d.blocks) && forall i: nat :: i < |img| ==> HoldsByte(img, d, i)
  }

  ghost predicate HoldsByte(img: seq<Byte>, d: Disk, i: nat)
    requires |d.files| == |d.numbers| && i < |img|
  {
    img[i] == ImageByte(d, i)
  }

  // ---- Reading the fields ----

  /** Four bytes that are those of a word. */
  lemma WordAt(img: seq<Byte>, at: nat, w: nat)
    requires at + 4 <= |img| && w < WORD && forall k :: 0 <= k < 4 ==> img[at + k] == ByteOf(w, k)
    ensures U32(img, at) == w
  {
    LittleEndian(w);
    assert img[at + 0] == ByteOf(w, 0);
  }

  lemma BootWords(img: seq<Byte>, d: Disk)
    requires Holds(img, d)
    ensures NumEntries(img) == |d.entries| && NumInodes(img) == |d.files|
  {
    forall k | 0 <= k < 4
      ensures img[0 + k] == ByteOf(|d.entries|, k) && img[4 + k] == ByteOf(|d.files|, k)
    {
      assert HoldsByte(img, d, 0 + k) && HoldsByte(img, d, 4 + k);
    }
    WordAt(img, 0, |d.entries|);
    WordAt(img, 4, |d.files|);
  }

  /** An entry as it is read: the name padded with NULs. */
  function Padded(e: DirEntry): Dentry
    requires |e.name| <= 32
  {
    Dentry(e.name + Fill(0, 32 - |e.name|), e.fileType, e.inode)
  }

  lemma EntryBytes(img: seq<Byte>, d: Disk, k: nat, at: nat, o: nat)
    requires Holds(img, d) && k < |d.entries| && at == 64 * (k + 1) && o < 64
    ensures at + o < 4096 && img[at + o] == EntryByte(d.entries[k], o)
  {
    assert (at + o) / 64 == k + 1 && (at + o) % 64 == o;
    assert (at + o) / 4096 == 0 && (at + o) % 4096 == at + o && HoldsByte(img, d, at + o);
  }

  lemma EntryWords(img: seq<Byte>, at: nat, e: DirEntry)
    requires at + 64 <= |img| && FitsEntry(e) && forall o: nat :: o < 64 ==> img[at + o] == EntryByte(e, o)
    ensures U32(img, at + 32) == e.fileType && U32(img, at + 36) == e.inode
  {
    forall o | 0 <= o < 4
      ensures img[at + 32 + o] == ByteOf(e.fileType, o) && img[at + 36 + o] == ByteOf(e.inode, o)
    {
      assert img[at + (32 + o)] == EntryByte(e, 32 + o) && img[at + (36 + o)] == EntryByte(e, 36 + o);
    }
    WordAt(img, at + 32, e.fileType);
    WordAt(img, at + 36, e.inode);
  }

  lemma EntryName(img: seq<Byte>, at: nat, e: DirEntry)
    requires at + 64 <= |img| && FitsEntry(e) && forall o: nat :: o < 64 ==> img[at + o] == EntryByte(e, o)
    ensures img[at..at + 32] == Padded(e).name && CString(img[at..at + 32], 32) == e.name
  {
    var field := e.name + Fill(0, 32 - |e.name|);
    forall o | 0 <= o < 32 ensures img[at..at + 32][o] == field[o] {
      assert img[at + o] == EntryByte(e, o);
    }
    assert field[..|e.name|] == e.name;
    StopsAfter(field, 32, |e.name|);
  }

  lemma EntryAt(img: seq<Byte>, d: Disk, k: nat)
    requires Holds(img, d) && k < |d.entries|
    ensures FitsEntry(d.entries[k]) && Entry(img, k) == Padded(d.entries[k])
    ensures CString(Entry(img, k).name, 32) == d.entries[k].name
  {
    var e, at := d.entries[k], 64 * (k + 1);
    forall o: nat | o < 64 ensures img[at + o] == EntryByte(e, o) {
      EntryBytes(img, d, k, at, o);
    }
    EntryWords(img, at, e);
    EntryName(img, at, e);
  }

  lemma InodeByte(img: seq<Byte>, d: Disk, f: nat, k: nat, at: nat, o: nat)
    requires Holds(img, d) && f < |d.files| && k < 1024 && at == 4096 * (f + 1) + 4 * k && o < 4
    ensures at + o < |img| && img[at + o] == ByteOf(InodeWord(d, f, k), o)
  {
    assert (at + o) / 4096 == f + 1 && (at + o) % 4096 == 4 * k + o;
    assert (4 * k + o) / 4 == k && (4 * k + o) % 4 == o && HoldsByte(img, d, at + o);
  }

  lemma InodeWordAt(img: seq<Byte>, d: Disk, f: nat, k: nat, at: nat)
    requires Holds(img, d) && f < |d.files| && k < 1024 && at == 4096 * (f + 1) + 4 * k
    ensures at + 4 <= |img| && U32(img, at) == InodeWord(d, f, k)
  {
    assert FitsFile(d.files[f], d.numbers[f], d.blocks);
    forall o | 0 <= o < 4 ensures img[at + o] == ByteOf(InodeWord(d, f, k), o) {
      InodeByte(img, d, f, k, at, o);
    }
    WordAt(img, at, InodeWord(d, f, k));
  }

  lemma BlockAt(img: seq<Byte>, d: Disk, f: nat, k: nat)
    requires Holds(img, d) && f < |d.files| && k < |d.numbers[f]| && NumInodes(img) == |d.files|
    ensures k < 1023 && BLOCK * (f + 2) <= |img| && BlockStart(img, f, k) == 4096 * (1 + |d.files| + d.numbers[f][k])
    ensures d.numbers[f][k] < d.blocks
  {
    assert FitsFile(d.files[f], d.numbers[f], d.blocks);
    InodeWordAt(img, d, f, k + 1, BLOCK * (f + 1) + 4 * (k + 1));
  }

  lemma InodeFits(img: seq<Byte>, d: Disk, f: nat)
    requires Holds(img, d) && f < |d.files|
    ensures WellFormedInode(img, f) && Length(img, f) == |d.files[f]|
  {
    BootWords(img, d);
    InodeWordAt(img, d, f, 0, BLOCK * (f + 1));
    assert FitsFile(d.files[f], d.numbers[f], d.blocks);
    assert BlocksUsed(img, f) == |d.numbers[f]|;
    forall k | 0 <= k < BlocksUsed(img, f) ensures BlockStart(img, f, k) + BLOCK <= |img| {
      BlockAt(img, d, f, k);
    }
  }

  lemma ImageIsWellFormed(img: seq<Byte>, d: Disk)
    requires Holds(img, d)
    ensures WellFormed(img)
  {
    BootWords(img, d);
    forall f | 0 <= f < NumInodes(img) ensures WellFormedInode(img, f) {
      InodeFits(img, d, f);
    }
  }

  // ---- Reading the files back ----

  lemma DataAt(img: seq<Byte>, d: Disk, f: nat, j: nat, o: nat)
    requires Holds(img, d) && f < |d.files| && o < 4096 && 4096 * j + o < |d.files[f]|
    ensures j < |d.numbers[f]| && d.numbers[f][j] < d.blocks
    ensures img[4096 * (1 + |d.files| + d.numbers[f][j]) + o] == d.files[f][4096 * j + o]
  {
    assert FitsFile(d.files[f], d.numbers[f], d.blocks);
    var n := d.numbers[f][j];
    assert IsBlock(d, f, j, n);
    var i := 4096 * (1 + |d.files| + n) + o;
    assert i / 4096 == 1 + |d.files| + n && i % 4096 == o;
    assert HoldsByte(img, d, i) && ImageByte(d, i) == DataByte(d, n, o);
  }

  /** The file with inode `f` is what was stored as file `f`. */
  lemma FileIs(img: seq<Byte>, d: Disk, f: nat)
    requires Holds(img, d) && f < |d.files|
    ensures WellFormed(img) && File(img, f) == d.files[f]
  {
    ImageIsWellFormed(img, d);
    BootWords(img, d);
    InodeFits(img, d, f);
    forall i | 0 <= i < |d.files[f]| ensures File(img, f)[i] == d.files[f][i] {
      FileByteIs(img, d, f, i, i / 4096, i % 4096, File(img, f));
    }
  }

  lemma FileByteIs(img: seq<Byte>, d: Disk, f: nat, i: nat, j: nat, o: nat, file: seq<Byte>)
    requires Holds(img, d) && f < |d.files| && WellFormed(img) && NumInodes(img) == |d.files| && file == File(img, f)
    requires i == 4096 * j + o && o < 4096 && i < |d.files[f]| == |file|
    ensures file[i] == d.files[f][i]
  {
    FileByte(img, f, j, o);
    StoredByte(img, d, f, i, j, o);
  }

  lemma StoredByte(img: seq<Byte>, d: Disk, f: nat, i: nat, j: nat, o: nat)
    requires Holds(img, d) && f < |d.files| && i < |d.files[f]| && j < 1023 && i == 4096 * j + o && o < 4096
    ensures 4096 * (f + 2) <= |img|
    ensures var at := 4096 * (1 + |d.files| + U32(img, 4096 * (f + 1) + 4 + 4 * j)) + o;
      at < |img| && img[at] == d.files[f][i]
  {
    InodeWordAt(img, d, f, j + 1, 4096 * (f + 1) + 4 + 4 * j);
    DataAt(img, d, f, j, o);
  }

  // ---- Looking the names up ----

  lemma LookupIs(img: seq<Byte>, d: Disk, name: seq<Byte>, k: nat)
    requires Holds(img, d) && k < |d.entries| && CString(name, 32) == d.entries[k].name
    ensures WellFormed(img) && Lookup(img, name) == Some(Padded(d.entries[k]))
  {
    ImageIsWellFormed(img, d);
    BootWords(img, d);
    EntryAt(img, d, k);
    var r := FirstNamed(img, name, 0);
    assert Named(img, k, name) && r <= k;
    EntryAt(img, d, r);
  }

  lemma LookupFails(img: seq<Byte>, d: Disk, name: seq<Byte>)
    requires Holds(img, d) && forall k :: 0 <= k < |d.entries| ==> d.entries[k].name != CString(name, 32)
    ensures WellFormed(img) && Lookup(img, name) == None
  {
    ImageIsWellFormed(img, d);
    BootWords(img, d);
    var r := FirstNamed(img, name, 0);
    if r < |d.entries| {
      EntryAt(img, d, r);
    }
  }

  /**
    The round trip: the image of any disk within the limits is well-formed, every file reads back as it
    was stored, and a name is found, as the entry that bears it, exactly when there is one.
   */
  lemma RoundTrip(d: Disk)
    requires Fits(d)
    ensures WellFormed(Image(d)) && NumEntries(Image(d)) == |d.entries| && NumInodes(Image(d)) == |d.files|
    ensures forall f :: 0 <= f < |d.files| ==> File(Image(d), f) == d.files[f]
    ensures forall k :: 0 <= k < |d.entries| ==> Entry(Image(d), k) == Padded(d.entries[k])
    ensures forall k, name :: 0 <= k < |d.entries| && CString(name, 32) == d.entries[k].name ==>
      Lookup(Image(d), name) == Some(Padded(d.entries[k]))
    ensures forall name :: (forall k :: 0 <= k < |d.entries| ==> d.entries[k].name != CString(name, 32)) ==>
      Lookup(Image(d), name) == None
  {
    var img := Image(d);
    ImageIsWellFormed(img, d);
    BootWords(img, d);
    forall f | 0 <= f < |d.files| ensures File(img, f) == d.files[f] {
      FileIs(img, d, f);
    }
    forall k | 0 <= k < |d.entries| ensures Entry(img, k) == Padded(d.entries[k]) {
      EntryAt(img, d, k);
    }
    forall k, name | 0 <= k < |d.entries| && CString(name, 32) == d.entries[k].name
      ensures Lookup(img, name) == Some(Padded(d.entries[k]))
    {
      LookupIs(img, d, name, k);
    }
    forall name | forall k :: 0 <= k < |d.entries| ==> d.entries[k].name != CString(name, 32)
      ensures Lookup(img, name) == None
    {
      LookupFails(img, d, name);
    }
  }

  // ---- Every list of files has such an image ----

  /** Number of data blocks of the first `f` files. */
  function BlocksBefore(files: seq<seq<Byte>>, f: nat): nat
    requires f <= |files|
  {
    if f == 0 then 0 else BlocksBefore(files, f - 1) + BlockCount(files[f - 1])
  }

  /** The data blocks numbered one file after the other. */
  function InOrder(entries: seq<DirEntry>, files: seq<seq<Byte>>): Disk {
    Disk(entries, files,
         seq(|files|, f requires 0 <= f < |files| => Numbers(BlocksBefore(files, f), BlockCount(files[f]))),
         BlocksBefore(files, |files|))
  }

  /** `count` numbers from `first` on. */
  function Numbers(first: nat, count: nat): (r: seq<nat>)
    ensures |r| == count && forall j :: 0 <= j < count ==> r[j] == first + j
  {
    if count == 0 then [] else Numbers(first, count - 1) + [first + count - 1]
  }

  lemma {:induction false} BlocksGrow(files: seq<seq<Byte>>, f: nat, g: nat)
    requires f < g <= |files|
    ensures BlocksBefore(files, f) + BlockCount(files[f]) <= BlocksBefore(files, g)
    decreases g
  {
    if f + 1 < g {
      BlocksGrow(files, f, g - 1);
    }
  }

  lemma InOrderFits(entries: seq<DirEntry>, files: seq<seq<Byte>>)
    requires |entries| <= 63 && |files| < WORD && BlocksBefore(files, |files|) < WORD
    requires forall k :: 0 <= k < |entries| ==> FitsEntry(entries[k])
    requires forall k, l :: 0 <= k < l < |entries| ==> entries[k].name != entries[l].name
    requires forall f :: 0 <= f < |files| ==> |files[f]| <= 1023 * 4096
    ensures Fits(InOrder(entries, files))
  {
    var d := InOrder(entries, files);
    forall f: nat, j: nat, g: nat, k: nat, n: nat | IsBlock(d, f, j, n) && IsBlock(d, g, k, n)
      ensures f == g && j == k
    {
      if f < g { BlocksGrow(files, f, g); }
      if g < f { BlocksGrow(files, g, f); }
    }
    forall f | 0 <= f < |files| ensures FitsFile(d.files[f], d.numbers[f], d.blocks) {
      BlocksGrow(files, f, |files|);
    }
  }
}
