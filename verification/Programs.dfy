// Which commands start a program, in terms of the disk the image was made of: the first
// word of the command, the entry it names and the bytes of that entry's file.

module Programs {
  import opened Memory
  import opened FileSystem
  import opened Machine
  import opened Scheduling
  import opened DiskImage

  /** `word` is the first word of the command, of which 32 characters count: it ends at a NUL or a blank. */
  predicate FirstWord(command: seq<Byte>, word: seq<Byte>) {
    word <= command && |word| <= 32 && 0 !in word && 32 !in word &&
    (|word| < 32 && |word| < |command| ==> command[|word|] == 0 || command[|word|] == 32)
  }

  lemma {:induction false} NameLengthIs(command: seq<Byte>, n: nat)
    ensures var r := NameLength(command, n);
      0 !in command[..r] && 32 !in command[..r] &&
      (r < n && r < |command| ==> command[r] == 0 || command[r] == 32)
    decreases n
  {
    if n > 0 && command != [] && command[0] != 0 && command[0] != BLANK {
      NameLengthIs(command[1..], n - 1);
      var r := NameLength(command[1..], n - 1);
      assert command[..1 + r] == [command[0]] + command[1..][..r];
    }
  }

  /** The name sys_execute looks up is exactly that word. */
  lemma LooksUpFirstWord(command: seq<Byte>, word: seq<Byte>)
    requires 0 in command
    ensures CString(ProgramName(command), 32) == word <==> FirstWord(command, word)
  {
    var r := NameLength(command, 32);
    NameLengthIs(command, 32);
    var mine, field := command[..r], ProgramName(command);
    assert field[..r] == mine;
    StopsAfter(field, 32, r);
    assert CString(field, 32) == mine;
    if FirstWord(command, word) {
      assert forall k :: 0 <= k < r ==> command[k] == mine[k] && mine[k] in mine;
      assert forall k :: 0 <= k < |word| ==> command[k] == word[k] && word[k] in word;
    }
  }

  /** The file begins as an executable and is long enough to hold its entry point. */
  predicate Executable(file: seq<Byte>) {
    |file| >= 24 && file[0] == 0x7F && file[1] == 0x45 && file[2] == 0x4C && file[3] == 0x46
  }

  /** The first word of the command names entry `e`, whose file is executable. */
  predicate NamesProgram(d: Disk, command: seq<Byte>, e: nat) {
    e < |d.entries| && FirstWord(command, d.entries[e].name) && d.entries[e].inode < |d.files| &&
    Executable(d.files[d.entries[e].inode])
  }

  lemma EntryLoads(d: Disk, img: seq<Byte>, command: seq<Byte>, e: nat)
    requires Holds(img, d) && 0 in command && e < |d.entries| && FirstWord(command, d.entries[e].name)
    ensures WellFormed(img) && Lookup(img, ProgramName(command)) == Some(Padded(d.entries[e]))
    ensures Loadable(img, command) <==> NamesProgram(d, command, e)
    ensures NamesProgram(d, command, e) ==>
      (FitsPage(img, command) <==> |d.files[d.entries[e].inode]| <= 3_899_392)
  {
    LooksUpFirstWord(command, d.entries[e].name);
    LookupIs(img, d, ProgramName(command), e);
    BootWords(img, d);
    var inode := d.entries[e].inode;
    if inode < |d.files| {
      FileIs(img, d, inode);
    }
  }

  /** A command can be loaded exactly when its first word names an executable. */
  lemma LoadsIff(d: Disk, img: seq<Byte>, command: seq<Byte>)
    requires Holds(img, d) && 0 in command
    ensures WellFormed(img) && (Loadable(img, command) <==> exists e: nat :: NamesProgram(d, command, e))
  {
    ImageIsWellFormed(img, d);
    if e: nat :| e < |d.entries| && FirstWord(command, d.entries[e].name) {
      EntryLoads(d, img, command, e);
      forall k: nat | NamesProgram(d, command, k) ensures k == e {
        LooksUpFirstWord(command, d.entries[e].name);
        LooksUpFirstWord(command, d.entries[k].name);
      }
    } else {
      forall k | 0 <= k < |d.entries| ensures d.entries[k].name != CString(ProgramName(command), 32) {
        LooksUpFirstWord(command, d.entries[k].name);
      }
      LookupFails(img, d, ProgramName(command));
    }
  }

  /**
    sys_execute starts a process exactly when one of the six numbers is unused and the first word of the
    command names an executable of at most 3,899,392 bytes; a longer one faults.
   */
  lemma StartsIff(d: Disk, m: Machine, command: seq<Byte>, e: nat)
    requires WellFormedMachine(m) && Holds(m.img, d) && 0 in command
    ensures Startable(m, command) <==>
      (exists p: nat :: p < 6 && !Uses(m.stacks, p)) && exists e: nat :: NamesProgram(d, command, e)
    ensures Startable(m, command) && NamesProgram(d, command, e) ==>
      (Faults(m, command) <==> |d.files[d.entries[e].inode]| > 3_899_392)
  {
    LoadsIff(d, m.img, command);
    if NamesProgram(d, command, e) {
      EntryLoads(d, m.img, command, e);
    }
    if p: nat :| p < 6 && !Uses(m.stacks, p) {
      assert FreePid(m.stacks, 0) <= p;
    }
  }

  /** The new process: the least unused number, its two standard descriptors, and six free ones. */
  lemma StartedProcess(m: Machine, command: seq<Byte>, ctx: nat)
    requires Can(m, Execute(Some(command), ctx)) && Startable(m, command)
    ensures var r := Step(m, Execute(Some(command), ctx));
      r.cur == m.cur && |r.stacks[r.cur]| == |m.stacks[m.cur]| + 1 &&
      r.stacks[r.cur][..|m.stacks[m.cur]|] == m.stacks[m.cur] &&
      var p := Top(r);
      p.pid < 6 && !Uses(m.stacks, p.pid) && (forall q: nat :: q < p.pid ==> Uses(m.stacks, q)) && p.ctx == ctx &&
      !p.exception && |p.fds| == 8 && p.fds[0] == Fd(Stdin, 0, 0) && p.fds[1] == Fd(Stdout, 0, 0) &&
      forall j :: 2 <= j < 8 ==> p.fds[j] == Fd(Unused, 0, -1)
  {
  }

  /** The command of a terminal's first process is the word shell. */
  lemma ShellIsNamed()
    ensures FirstWord(SHELL, [115, 104, 101, 108, 108]) && 0 in SHELL
  {
    assert SHELL[5] == 0;
    assert SHELL[..5] == [115, 104, 101, 108, 108];
  }
}
