// What a program sees through its descriptors: what an open means for each kind of file,
// how a directory is listed entry by entry, and that a stored file is read back as it was
// stored, whatever the other processes do in between.

module Descriptors {
  import opened Memory
  import opened FileSystem
  import opened Machine
  import opened Scheduling
  import opened Kernel
  import opened DiskImage

  // ---- What an open returns ----

  /** The name begins with stdin, or with stdout. */
  predicate BeginsStdin(name: seq<Byte>) { [115, 116, 100, 105, 110] <= name }
  predicate BeginsStdout(name: seq<Byte>) { [115, 116, 100, 111, 117, 116] <= name }

  /** A comparison of so many characters as a word has tells whether the name begins with it. */
  lemma ComparedPrefix(name: seq<Byte>, word: seq<Byte>)
    requires 0 !in word
    ensures CString(name, |word|) == word <==> word <= name
  {
    if word <= name {
      assert name[..|word|] == word;
      StopsAfter(name, |word|, |word|);
    }
  }

  lemma StandardNames(name: seq<Byte>)
    ensures IsStdin(name) <==> BeginsStdin(name)
    ensures IsStdout(name) <==> BeginsStdout(name)
  {
    var a: seq<Byte>, b: seq<Byte> := [115, 116, 100, 105, 110], [115, 116, 100, 111, 117, 116];
    assert a <= STDIN && b <= STDOUT;
    ComparedPrefix(STDIN, a);
    ComparedPrefix(STDOUT, b);
    ComparedPrefix(name, a);
    ComparedPrefix(name, b);
  }

  /**
    sys_open of a name that is not standard fails exactly when descriptors 2 to 7 are all in use, the
    name is in no directory entry, or the entry's type is none of 0, 1 and 2.
   */
  lemma OpenFailsIff(img: seq<Byte>, p: Proc, name: seq<Byte>)
    requires WellFormed(img) && |p.fds| == 8 && Scannable(name, 32) && !BeginsStdin(name) && !BeginsStdout(name)
    ensures OpenValue(img, p, Some(name)) == -1 <==>
      (forall j :: 2 <= j < 8 ==> p.fds[j].kind != Unused) || Lookup(img, name).None? ||
      Lookup(img, name).value.fileType > 2
    ensures OpenValue(img, p, Some(name)) == -1 || 2 <= OpenValue(img, p, Some(name)) < 8
  {
    StandardNames(name);
  }

  /** A new descriptor is the clock for type 0, the directory for type 1 and the entry's file for type 2. */
  lemma OpenGives(img: seq<Byte>, p: Proc, name: seq<Byte>)
    requires WellFormed(img) && |p.fds| == 8 == |p.got| && OpenValue(img, p, Some(name)) >= 2
    ensures OpenValue(img, p, Some(name)) < 8 && Lookup(img, name).Some?
    ensures var f, d := Opened(img, p, Some(name)).fds[OpenValue(img, p, Some(name))], Lookup(img, name).value;
      f.pos == 0 && (f.kind == Rtc <==> d.fileType == 0) && (f.kind == Directory <==> d.fileType == 1) &&
      (f.kind == Regular <==> d.fileType == 2) && (d.fileType == 2 ==> f.inode == d.inode)
    ensures Opened(img, p, Some(name)).got[OpenValue(img, p, Some(name))] == []
  {
  }

  /** A descriptor can be closed once: when it has been opened, and not again. */
  lemma CloseOnce(p: Proc, fd: int)
    requires |p.fds| == 8 == |p.got|
    ensures !Closable(Closed(p, fd), fd)
    ensures 2 <= fd < 8 && p.fds[fd].kind != Unused ==> Closable(p, fd) && Closed(p, fd).fds[fd].kind == Unused
    ensures !(2 <= fd < 8 && p.fds[fd].kind != Unused) ==> !Closable(p, fd) && Closed(p, fd) == p
    ensures forall j :: 0 <= j < 8 && j != fd ==> Closed(p, fd).fds[j] == p.fds[j]
  {
  }

  /** A read is refused, and does nothing, on descriptor 1, outside 0 to 7, for a negative length and when unused. */
  lemma ReadRefused(img: seq<Byte>, p: Proc, fd: int, nbytes: int, typed: int)
    requires WellFormed(img) && |p.fds| == 8 == |p.got|
    requires fd == 1 || fd < 0 || fd >= 8 || nbytes < 0 || p.fds[fd].kind == Unused
    ensures ReadValue(img, p, fd, nbytes, typed) == -1 && ReadBytes(img, p, fd, nbytes) == []
    ensures AfterRead(img, p, fd, nbytes) == p
  {
  }

  /** The call gives the descriptor back: afterwards the process has it unused, and everything else as it was. */
  lemma CloseFrees(m: Machine, fd: int)
    requires Can(m, Close(fd)) && 2 <= fd < 8
    ensures var r, p := Step(m, Close(fd)), Top(m);
      Running(r) && r.cur == m.cur && |r.stacks[r.cur]| == |m.stacks[m.cur]| &&
      Top(r).fds[fd].kind == Unused && (forall j :: 0 <= j < 8 && j != fd ==> Top(r).fds[j] == p.fds[j]) &&
      Top(r).pid == p.pid && Top(r).ctx == p.ctx &&
      forall t :: 0 <= t < 3 && t != m.cur ==> r.stacks[t] == m.stacks[t]
  {
    CloseOnce(Top(m), fd);
  }

  // ---- A descriptor over whole runs ----

  /** The process at position `h` of stack `t` is the one that runs. */
  ghost predicate Acts(m: Machine, t: nat, h: nat)
    requires WellFormedMachine(m) && t < THREADS
  {
    m.cur == t && |m.stacks[t]| == h + 1
  }

  /** The event is a read of descriptor `fd` by that process. */
  ghost predicate Reads(m: Machine, ev: Event, t: nat, h: nat, fd: nat)
    requires WellFormedMachine(m) && t < THREADS
  {
    Acts(m, t, h) && ev.Read? && ev.fd == fd && ev.nbytes >= 0
  }

  /** How often the process reads from descriptor `fd` during the run. */
  ghost function ReadCount(m: Machine, evs: seq<Event>, t: nat, h: nat, fd: nat): nat
    requires CanAll(m, evs) && t < THREADS
    decreases |evs|
  {
    if evs == [] then 0
    else (if Reads(m, evs[0], t, h, fd) then 1 else 0) + ReadCount(Step(m, evs[0]), evs[1..], t, h, fd)
  }

  /** The process lives throughout the run and does not close descriptor `fd`. */
  ghost predicate Keeps(m: Machine, evs: seq<Event>, t: nat, h: nat, fd: nat)
    requires CanAll(m, evs) && t < THREADS
    decreases |evs|
  {
    |m.stacks[t]| > h &&
    (evs != [] ==> !(Acts(m, t, h) && evs[0] == Close(fd)) && Keeps(Step(m, evs[0]), evs[1..], t, h, fd))
  }

  ghost function FdAt(m: Machine, t: nat, h: nat, fd: nat): Fd
    requires WellFormedMachine(m) && t < THREADS && h < |m.stacks[t]| && fd < FDS
  {
    m.stacks[t][h].fds[fd]
  }

  /** Where a directory stands after one more read. */
  ghost function AfterEntry(img: seq<Byte>, pos: int): int
    requires WellFormed(img)
  {
    if pos == NumEntries(img) then 0 else pos + 1
  }

  lemma ReadKeepsFd(img: seq<Byte>, p: Proc, at: int, nbytes: int, fd: nat)
    requires WellFormed(img) && |p.fds| == FDS == |p.got| && fd < FDS
    requires p.fds[fd].kind == Directory ==> 0 <= p.fds[fd].pos <= NumEntries(img)
    ensures var f, g := p.fds[fd], AfterRead(img, p, at, nbytes).fds[fd];
      g.kind == f.kind && g.inode == f.inode &&
      (f.kind == Directory ==> g.pos == if at == fd != 1 && nbytes >= 0 then AfterEntry(img, f.pos) else f.pos)
  {
  }

  lemma OpenKeepsFd(img: seq<Byte>, p: Proc, name: Option<seq<Byte>>, fd: nat)
    requires WellFormed(img) && |p.fds| == FDS == |p.got| && fd < FDS && p.fds[fd].kind != Unused
    ensures Opened(img, p, name).fds[fd] == p.fds[fd]
  {
  }

  /** Only its own reads move an open directory, and nothing makes a descriptor another file's. */
  lemma StepKeepsFd(m: Machine, ev: Event, t: nat, h: nat, fd: nat)
    requires Can(m, ev) && t < THREADS && h < |m.stacks[t]| && h < |Step(m, ev).stacks[t]| && fd < FDS && fd != 1
    requires FdAt(m, t, h, fd).kind != Unused && !(Acts(m, t, h) && ev == Close(fd))
    requires FdAt(m, t, h, fd).kind == Directory ==> 0 <= FdAt(m, t, h, fd).pos <= NumEntries(m.img)
    ensures var f, g := FdAt(m, t, h, fd), FdAt(Step(m, ev), t, h, fd);
      g.kind == f.kind && g.inode == f.inode &&
      (f.kind == Directory ==> g.pos == if Reads(m, ev, t, h, fd) then AfterEntry(m.img, f.pos) else f.pos)
  {
    if Acts(m, t, h) {
      assert m.stacks[t][h] == Top(m);
      match ev
      case Read(at, nbytes) => ReadKeepsFd(m.img, Top(m), at, nbytes, fd);
      case Open(name) => OpenKeepsFd(m.img, Top(m), name, fd);
      case _ =>
    } else {
      assert Step(m, ev).stacks[t][h] == m.stacks[t][h];
    }
  }

  /**
    Over any interleaving of all threads an open directory goes through its entries: it has moved on by
    one place for each read, and begins again after the last entry and the end mark.
   */
  lemma {:induction false} DirectoryOverRuns(m: Machine, evs: seq<Event>, t: nat, h: nat, fd: nat)
      returns (rounds: nat)
    requires CanAll(m, evs) && t < THREADS && fd < FDS && fd != 1 && Keeps(m, evs, t, h, fd)
    requires FdAt(m, t, h, fd).kind == Directory && 0 <= FdAt(m, t, h, fd).pos <= NumEntries(m.img)
    ensures h < |Run(m, evs).stacks[t]| && FdAt(Run(m, evs), t, h, fd).kind == Directory
    ensures 0 <= FdAt(Run(m, evs), t, h, fd).pos <= NumEntries(m.img)
    ensures FdAt(m, t, h, fd).pos + ReadCount(m, evs, t, h, fd) ==
            rounds * (NumEntries(m.img) + 1) + FdAt(Run(m, evs), t, h, fd).pos
    decreases |evs|
  {
    if evs == [] {
      rounds := 0;
    } else {
      var next := Step(m, evs[0]);
      StepKeepsFd(m, evs[0], t, h, fd);
      rounds := DirectoryOverRuns(next, evs[1..], t, h, fd);
      if Reads(m, evs[0], t, h, fd) && FdAt(m, t, h, fd).pos == NumEntries(m.img) {
        assert (rounds + 1) * (NumEntries(m.img) + 1) == rounds * (NumEntries(m.img) + 1) + NumEntries(m.img) + 1;
        rounds := rounds + 1;
      }
    }
  }

  /** A descriptor of a regular file stays with its file. */
  lemma {:induction false} FileOverRuns(m: Machine, evs: seq<Event>, t: nat, h: nat, fd: nat)
    requires CanAll(m, evs) && t < THREADS && fd < FDS && fd != 1 && Keeps(m, evs, t, h, fd) && AllStream(m)
    requires FdAt(m, t, h, fd).kind == Regular
    ensures h < |Run(m, evs).stacks[t]| && FdAt(Run(m, evs), t, h, fd).kind == Regular && AllStream(Run(m, evs))
    ensures FdAt(Run(m, evs), t, h, fd).inode == FdAt(m, t, h, fd).inode
    decreases |evs|
  {
    if evs != [] {
      StepKeepsFd(m, evs[0], t, h, fd);
      StepStreams(m, evs[0]);
      FileOverRuns(Step(m, evs[0]), evs[1..], t, h, fd);
    }
  }

  // ---- Listing a directory ----

  /** What a read of the directory at place `pos` does: the name of entry `pos`, and 0 at the end. */
  lemma DirectoryReadGives(img: seq<Byte>, p: Proc, fd: nat, nbytes: nat, typed: int)
    requires WellFormed(img) && |p.fds| == FDS == |p.got| && fd < FDS && fd != 1 && p.fds[fd].kind == Directory
    requires 0 <= p.fds[fd].pos <= U32(img, 0)
    ensures var pos := p.fds[fd].pos;
      if pos == U32(img, 0) then ReadValue(img, p, fd, nbytes, typed) == 0 && ReadBytes(img, p, fd, nbytes) == []
      else
        pos < 63 && ReadBytes(img, p, fd, nbytes) == CString(img[64 * pos + 64..64 * pos + 96], 32) &&
        ReadValue(img, p, fd, nbytes, typed) == |ReadBytes(img, p, fd, nbytes)|
  {
  }

  /** The same on the image of a disk. */
  lemma EntryRead(d: Disk, img: seq<Byte>, p: Proc, fd: nat, nbytes: nat, typed: int)
    requires Holds(img, d) && WellFormed(img) && |p.fds| == FDS == |p.got| && fd < FDS && fd != 1
    requires p.fds[fd].kind == Directory && 0 <= p.fds[fd].pos <= |d.entries|
    ensures var pos := p.fds[fd].pos;
      if pos == |d.entries| then ReadValue(img, p, fd, nbytes, typed) == 0 && ReadBytes(img, p, fd, nbytes) == []
      else
        ReadBytes(img, p, fd, nbytes) == d.entries[pos].name &&
        ReadValue(img, p, fd, nbytes, typed) == |d.entries[pos].name|
  {
    BootWords(img, d);
    DirectoryReadGives(img, p, fd, nbytes, typed);
    if p.fds[fd].pos < |d.entries| {
      EntryAt(img, d, p.fds[fd].pos);
    }
  }

  /** A directory read from the start on stands at the number of reads, counted round and round. */
  lemma PlaceAfterReads(m: Machine, evs: seq<Event>, t: nat, h: nat, fd: nat)
    requires CanAll(m, evs) && t < THREADS && fd < FDS && fd != 1 && Keeps(m, evs, t, h, fd)
    requires FdAt(m, t, h, fd).kind == Directory && FdAt(m, t, h, fd).pos == 0
    ensures h < |Run(m, evs).stacks[t]| && FdAt(Run(m, evs), t, h, fd).kind == Directory
    ensures FdAt(Run(m, evs), t, h, fd).pos == ReadCount(m, evs, t, h, fd) % (NumEntries(m.img) + 1)
  {
    var rounds := DirectoryOverRuns(m, evs, t, h, fd);
    Remainder(ReadCount(m, evs, t, h, fd), NumEntries(m.img) + 1, rounds, FdAt(Run(m, evs), t, h, fd).pos);
  }

  /**
    The law a listing program rests on. The process has the directory open at its first entry, and over
    any run in which it lives and keeps the descriptor it reads from it k times. The next read gives the
    name of entry k, returns 0 when k is the number of entries, and begins again after that.
   */
  lemma Listing(d: Disk, m: Machine, evs: seq<Event>, t: nat, h: nat, fd: nat, nbytes: nat, typed: int)
    requires CanAll(m, evs) && Holds(m.img, d) && t < THREADS && fd < FDS && fd != 1
    requires Keeps(m, evs, t, h, fd) && FdAt(m, t, h, fd).kind == Directory && FdAt(m, t, h, fd).pos == 0
    requires Acts(Run(m, evs), t, h)
    ensures var k, p := ReadCount(m, evs, t, h, fd) % (|d.entries| + 1), Top(Run(m, evs));
      if k == |d.entries| then ReadValue(m.img, p, fd, nbytes, typed) == 0 && ReadBytes(m.img, p, fd, nbytes) == []
      else
        ReadBytes(m.img, p, fd, nbytes) == d.entries[k].name &&
        ReadValue(m.img, p, fd, nbytes, typed) == |d.entries[k].name|
  {
    BootWords(m.img, d);
    PlaceAfterReads(m, evs, t, h, fd);
    EntryRead(d, m.img, Top(Run(m, evs)), fd, nbytes, typed);
  }

  // ---- Reading a stored file back ----

  /** The open of a name puts a descriptor of its entry, at the start, into the running process's table. */
  lemma OpenStored(d: Disk, m: Machine, name: seq<Byte>, e: nat)
    requires Holds(m.img, d) && Can(m, Open(Some(name))) && OpenValue(m.img, Top(m), Some(name)) >= 2
    requires e < |d.entries| && CString(name, 32) == d.entries[e].name
    ensures OpenValue(m.img, Top(m), Some(name)) < FDS && d.entries[e].fileType <= 2
    ensures Acts(Step(m, Open(Some(name))), m.cur, |m.stacks[m.cur]| - 1)
    ensures FdAt(Step(m, Open(Some(name))), m.cur, |m.stacks[m.cur]| - 1, OpenValue(m.img, Top(m), Some(name))) ==
      match d.entries[e].fileType
      case 0 => Fd(Rtc, 0, 0)
      case 1 => Fd(Directory, 0, 0)
      case _ => Fd(Regular, d.entries[e].inode, 0)
  {
    LookupIs(m.img, d, name, e);
    OpenGives(m.img, Top(m), name);
    assert Top(Step(m, Open(Some(name)))) == Opened(m.img, Top(m), Some(name));
  }

  /**
    A process that has a stored file open gets the bytes that were stored: over any run in which it lives
    and keeps the descriptor, what came through it is the stored file up to its position.
   */
  lemma StoredFileRead(d: Disk, m: Machine, evs: seq<Event>, t: nat, h: nat, fd: nat, f: nat)
    requires CanAll(m, evs) && Holds(m.img, d) && t < THREADS && fd < FDS && fd != 1 && AllStream(m)
    requires Keeps(m, evs, t, h, fd) && FdAt(m, t, h, fd).kind == Regular && FdAt(m, t, h, fd).inode == f < |d.files|
    ensures h < |Run(m, evs).stacks[t]| && 0 <= FdAt(Run(m, evs), t, h, fd).pos <= |d.files[f]|
    ensures Run(m, evs).stacks[t][h].got[fd] == d.files[f][..FdAt(Run(m, evs), t, h, fd).pos]
  {
    FileOverRuns(m, evs, t, h, fd);
    FileIs(m.img, d, f);
    var p := Run(m, evs).stacks[t][h];
    assert Streams(m.img, p);
    assert p.fds[0].kind == Stdin && StreamHolds(m.img, p.fds[fd], p.got[fd]);
  }

  /** And the next read returns the next bytes of it, as many as were asked for or are left. */
  lemma NextBytes(d: Disk, img: seq<Byte>, p: Proc, fd: nat, nbytes: nat, typed: int, f: nat)
    requires Holds(img, d) && WellFormed(img) && |p.fds| == FDS == |p.got| && fd < FDS && fd != 1
    requires p.fds[fd].kind == Regular && p.fds[fd].inode == f < |d.files| && 0 <= p.fds[fd].pos <= |d.files[f]|
    ensures var pos := p.fds[fd].pos;
      var n := if nbytes < |d.files[f]| - pos then nbytes else |d.files[f]| - pos;
      ReadValue(img, p, fd, nbytes, typed) == n && ReadBytes(img, p, fd, nbytes) == d.files[f][pos..pos + n] &&
      AfterRead(img, p, fd, nbytes).fds[fd].pos == pos + n
  {
    BootWords(img, d);
    FileIs(img, d, f);
  }
}
