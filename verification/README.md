# MarvelOS: verified models of the kernel's stateful parts

MarvelOS is a small x86 teaching kernel with three text terminals, six process slots, a
round-robin scheduler over three threads, a read-only file system and a few user programs.
This project models its stateful code in Dafny and proves what that code is for: that three
terminals behave as three dedicated screens, that one flat process table behaves as three
process stacks, that block-wise reads are slices of a file, that the buffered line scanner of
`grep` reports the right lines, that the blinking characters of `fish` are a sequence of
records, and that the library loops under all of this move, copy, fill and convert correctly.

Each part has two layers. A specification on values (modules `Screen`, `Tty`, `Machine`,
`Scheduling`, and the first halves of `FileSystem`, `Grep`, `Blink`, `Frames`, `Numbers`)
says what the part means and what holds over whole runs. A class or a set of methods over arrays
(`Memory`, `Terminals`, `Kernel`, `Blink.Pool`, and the second halves of the others) follows
the source statement by statement, and each method's postcondition equates the new state with
the specification's step. The two meet in `Terminals.Terminals.HandleAll`,
`Kernel.Kernel.PerformAll`, `System.System.PerformAll`, `Blink.Pool.PerformAll`, `Grep.DoOneFile`, `Frames.FrameCalls`
and `Numbers.Itoa`, so the theorems about runs of the specification hold of the code.

| file | subject |
|---|---|
| `Layout.dfy` | the constants of text on the screen that several parts share |
| `Memory.dfy` | memmove, memcpy, memset |
| `Numbers.dfy` | itoa, strrev, `%#x` |
| `Screen.dfy`, `Tty.dfy` | one dedicated screen; one terminal's line discipline; three of them |
| `Terminals.dfy` | video memory, keyboard rows, switching, the page table behind vidmap |
| `FileSystem.dfy`, `DiskImage.dfy` | directory lookup and read_data over the disk image; images written out byte by byte |
| `Grep.dfy` | the buffered line scanner |
| `Blink.dfy`, `Frames.dfy` | the blink list over its pool; add_frames |
| `Machine.dfy`, `Scheduling.dfy` | three process stacks and what they guarantee over runs |
| `Kernel.dfy` | process table, execute, halt, timer, open, read, close |
| `Programs.dfy`, `Descriptors.dfy` | which commands start a program; what a program sees through its descriptors |
| `System.dfy` | kernel and console together |

## Assumptions

- Each interrupt handler and the critical body of each system call is one atomic step. The gates
  are installed with `reserved3 = 1` (student-distrib/idt_init.c:324-332, 357-359), so the
  hardware does not enforce this. A blocking terminal read is two steps: it begins to wait, and
  it copies out.
- The TLB is flushed whenever a mapping changes. A saved kernel context (`esp`, `ebp`) is an
  opaque token.
- Keys arrive as decoded events; scan codes and modifier toggles are not modelled.
- Descriptor number 8 passes the source's range checks, which use `>` where `>=` was meant
  (student-distrib/systemcall.c:54, 442, 569); the model requires that it is not used.
- An input that stores past the end of its 128-byte keyboard row, or reads past it, is outside
  the model (`Tty.Fits`).

## Where the code does not do what one would expect

- The first start of a shell can fail: if the first process executes until all six
  process numbers are used before the second thread has run, the timer cannot start a shell
  (`Scheduling.FirstStartCanFail`). A restart after a root shell has ended never fails, in any state
  reachable from boot (`Scheduling.RestartsFromBoot`).
- Keys between an accepted Enter and the copy-out are not held back. Exactly the ones that edit
  the line break the line discipline (`Tty.StepKeepsDisciplineIff`); a Backspace takes the stored
  newline away (`Tty.UntimelyBackspaceLosesNewline`). Of all inputs of a disciplined terminal
  exactly one overruns the keyboard row: a second Enter when 128 bytes were accepted
  (`Tty.OverrunsIff`), which a line of 127 characters and two Enters reach
  (`Tty.UntimelyEnterOverruns`). Its newline lands in the next terminal's row
  (`Terminals.Terminals.OverrunEnter`), so there, and of all inputs of disciplined terminals only
  there, the terminals are not independent.
- A directory read ignores its length and stores the whole name. It stays within the length
  exactly when the name does (`Kernel.ReadStoresIff`); a read of 0 bytes from a directory with a
  name stores more (`Kernel.DirectoryReadStoresMore`).
- sys_execute is all or nothing but for one case. A program is copied to 0x08048000, and the page
  after the 4MB at 0x08000000 is not present, so an executable of more than 3,899,392 bytes passes
  every test and faults after the process table, paging and descriptors have been changed; the
  fault handler then halts a process whose context was never saved. The copy stays on the page
  exactly when the file is short enough (`Kernel.LoadFitsIff`), `Kernel.Kernel.ExecuteProgram`
  gives the state at the fault, and a disk image of three blocks gets there
  (`Scheduling.LongShellFaults`). What the handler does then is not part of this model.
- A blink record at location 0 is accepted, and its slot still looks free. The list stays sound
  exactly when the location is not 0 (`Blink.InsertIsSoundIff`); two adds at 0 make a cycle
  (`Blink.Pool.TwoAddsAtZero`).
- A blink sync always shows the off character, because the `cmovl` after `testb $1`
  (fish/blink.S:281-282) is never taken. Screen and status agree afterwards exactly when the
  source record is off or the target's two characters are the same (`Blink.SyncAgreesIff`); two adds
  and a sync get there (`Blink.SyncMisleads`).
- `grep` cuts lines after 1024 bytes, and it tests the byte after its buffer, which it never
  initialises. For NUL-free files it reports exactly the matching lines for all patterns if and
  only if no line is longer and, when that byte happens to be a newline, the first full buffer
  that does not end in a newline does not end inside a line (`Grep.ReportsAllPatternsIff`).
  Searches for single bytes are enough to tell.
- `grep` finds a line by all its bytes but prints it up to its first NUL, so a selected line is
  shown as it is exactly when it has no NUL (`Grep.ShownTextIff`); a file of one line with a NUL in
  the middle is misreported (`Grep.NulFileMisreported`).
- The comment above the second lookup in student-distrib/filesystem.c:78-86 names the wrong
  function; the code is read_dentry_by_index.

## Model

| member | source | states |
|---|---|---|
| Memory.Memmove | student-distrib/lib.c:572-593 | for every overlap and length the destination holds the bytes the source held before, and nothing else changes |
| Memory.Memcpy | student-distrib/lib.c:520-560 | for every alignment, the split into head, double words and tail equals the bytewise copy between ranges that do not meet |
| Memory.CopyBytes | student-distrib/lib.c:524-552 | the byte loops stop at the first aligned destination or at the end, having copied exactly what came before |
| Memory.CopyDwords | student-distrib/lib.c:535-542 | the double-word body copies exactly four bytes a word |
| Memory.Memset | student-distrib/lib.c:419-456 | for every alignment, exactly n bytes become the low byte of c |
| Memory.BlitAppend | student-distrib/filesystem.c:150-166 | storing adjacent pieces one after the other stores their concatenation |
| Numbers.LowFirstValue | student-distrib/lib.c:349-359 | the digits the loop produces, turned around, evaluate to the number again, for every radix 2 to 36 |
| Numbers.TextIsNumeral | student-distrib/lib.c:333-366 | the text of a 32-bit value reads back as the value, has no leading zero unless it is 0, 1 to 32 characters, all of them digits of the radix |
| Numbers.DigitCount | student-distrib/lib.c:354-359 | a number below radix^k has at most k digits |
| Numbers.WriteDigits | student-distrib/lib.c:338-362 | the digit loop stores the digits lowest place first and a NUL, and nothing else |
| Numbers.Itoa | student-distrib/lib.c:333-366 | the buffer holds the text of the number and a NUL, the rest of it is untouched |
| Numbers.Strlen | student-distrib/lib.c:400-408 | the number of bytes before the first NUL |
| Numbers.TurnAround | student-distrib/lib.c:382-388 | the exchange loop turns the string around in place |
| Numbers.Strrev | student-distrib/lib.c:375-391 | the string before the NUL is reversed, everything else kept |
| Numbers.ReversedTwice | student-distrib/lib.c:375-391 | reversing twice gives the string back |
| Numbers.PrintHex | student-distrib/lib.c:163-182 | `%#x` sends the zero-padded text of the number |
| Numbers.PaddedIsNumeral | student-distrib/lib.c:118-121 | that text has exactly eight hexadecimal digits and evaluates to the number |
| Screen.ClearIsBlank | student-distrib/lib.c:98-108 | after clear every cell is a space, the cursor is at the origin, and the layout starts as a blank sheet |
| Screen.ScreenIsWindowOfLayout | student-distrib/lib.c:265-322 | from any screen on, after any byte stream, the 25 rows are rows top..top+24 of the unbounded 80-column layout, unwritten cells keep what the screen held, and the cursor is inside |
| Screen.PutMovesWindow | student-distrib/lib.c:265-285 | one more byte moves the window along the layout |
| Screen.PutAt | student-distrib/lib.c:42-58 | what every cell shows after a byte, with and without a scroll |
| Screen.PutCell | student-distrib/lib.c:265-285 | the same counted in the 2000 cells, with the place of the cursor |
| Screen.NothingBelowCursor | student-distrib/lib.c:50-57 | nothing is written from the cursor on, which is why a scroll brings up a blank row |
| Screen.PutKeepsEcho | student-distrib/lib.c:265-285 | typing keeps the line in the cells before the cursor, across wraps and scrolls |
| Screen.EraseKeepsEcho | student-distrib/lib.c:66-89 | erasing removes the last character of the line from the screen, also across a row edge |
| Screen.EraseShows | student-distrib/lib.c:66-89 | erasing leaves a space under the new cursor, one cell back, and every other cell as it was |
| Screen.PutKeepsBlankAhead | student-distrib/lib.c:265-285 | a byte leaves nothing from the cursor on, also when the screen scrolls |
| Screen.RedrawEchoes | student-distrib/terminal.c:90-96 | a cleared screen with the line typed again shows the line before the cursor |
| Screen.RedrawShows | student-distrib/terminal.c:90-96 | the 2000 cells after Ctrl-L: the line from the top left corner on, and spaces |
| Tty.StepKeepsDisciplineIff | student-distrib/terminal.c:144-178 | an input keeps the line discipline if and only if it is not a key that edits an accepted line |
| Tty.DisciplineOverRuns | student-distrib/terminal.c:144-178 | over any run of timely inputs no keyboard row is overrun, there is no newline until a line is accepted, and at most 127 characters |
| Tty.UntimelyBackspaceLosesNewline | student-distrib/terminal.c:144-152 | a run in which an untimely Backspace removes the stored newline |
| Tty.EditingEdits | student-distrib/terminal.c:144-178 | the buffer is the fold of keys and backspaces capped at 127, whatever output falls between them |
| Tty.CollectedLine | student-distrib/terminal.c:255-261 | the copy-out of a line with its newline is its first nbytes bytes |
| Tty.EnterAccepts | student-distrib/terminal.c:156-178 | Enter stores the edited line and its newline for a waiting reader, and discards the line with none |
| Tty.IdleKeepsLine | student-distrib/terminal.c:144-178 | output, redraws and stores between Enter and the copy-out leave the accepted line alone |
| Tty.ReadReturnsEditedLine | student-distrib/terminal.c:156-267 | a waiting reader gets the first min(nbytes, n+1) bytes of the edited line and newline, however other inputs fall between the keys and before the copy-out, and the buffer is empty after |
| Tty.ReadInAnyInterleaving | student-distrib/terminal.c:156-267 | the same for each terminal in any interleaving of all three |
| Tty.OverrunsIff | student-distrib/terminal.c:161-165 | of a disciplined terminal's inputs exactly one overruns the 128-byte row: Enter when 128 bytes were accepted |
| Tty.UntimelyEnterOverruns | student-distrib/terminal.c:161-165 | a run that gets there: 127 characters and two Enters |
| Tty.StepKeepsEcho | student-distrib/terminal.c:88-178 | each input keeps line and screen in agreement |
| Tty.KeyShows | student-distrib/terminal.c:156-177 | a key is stored and shown at the cursor, every cell of the screen given; at 127 characters it is ignored |
| Tty.EnterShows | student-distrib/terminal.c:156-158 | Enter puts the cursor at the start of the next row and scrolls at the bottom, every cell given |
| Tty.BackspaceErases | student-distrib/terminal.c:144-152 | on a terminal in agreement, Backspace takes the last character off the line and off the screen: its cell is blank and every other cell as it was |
| Tty.RedrawLeavesLine | student-distrib/terminal.c:88-97 | Ctrl-L leaves the line being edited at the top left and nothing else |
| Tty.RedrawIsLayout | student-distrib/terminal.c:88-97 | and in any state the window of the layout of the buffered bytes on a blank sheet |
| Tty.StepKeepsBlankAhead | student-distrib/terminal.c:88-178 | every input but a store through the vidmap pointer keeps the screen blank from the cursor on |
| Tty.BlankAheadOverRuns | student-distrib/terminal.c:88-178 | over any run of keys and output, what was erased stays erased: nothing is shown from the cursor on |
| Tty.GreyOverRuns | student-distrib/lib.c:265-285 | over any such run every cell keeps the attribute that makes it visible |
| Tty.EchoOverRuns | student-distrib/terminal.c:88-178 | while nothing is accepted, the cells before the cursor show exactly the buffered characters, over any run in which processes print only when the line is empty |
| Tty.TerminalsAreIndependent | student-distrib/terminal.c:100-126 | in any interleaving of keys, output, stores and switches, each terminal ends as a dedicated one that got only its own inputs |
| Tty.EchoInAnyInterleaving | student-distrib/terminal.c:88-178 | the echo agreement holds for each of the three terminals in any interleaving |
| Tty.BlankAheadInAnyInterleaving | student-distrib/terminal.c:88-178 | the same for each of the three terminals in any interleaving |
| Tty.StoreArrives | student-distrib/systemcall.c:628-629 | a store through the vidmap pointer changes exactly that byte of its terminal's page, whatever the others do and whichever is displayed |
| Tty.RunPrints | student-distrib/lib.c:265-322 | the screen of a terminal is the result of printing all bytes its inputs sent to it |
| Tty.LayoutInAnyInterleaving | student-distrib/lib.c:265-322 | so in any interleaving each terminal, whatever its page held, shows the window of the layout of its own bytes |
| Terminals.Terminals.Boot | student-distrib/terminal.c:197-220 | initial state: valid, terminal 0 displayed and blank, rows empty, nobody waiting |
| Terminals.Terminals.Placement | student-distrib/systemcall.c:11-40 | the display page holds the screen of the displayed terminal, the others are on their backing pages, each user page-table entry maps the page its terminal is on, and each keyboard row holds its line and zeros |
| Terminals.Terminals.TextShiftUp | student-distrib/lib.c:42-58 | the backing page scrolls, and the display too when it shows the terminal; other pages are untouched |
| Terminals.Terminals.Putc | student-distrib/lib.c:294-322 | process output changes the logical screen of its terminal as a dedicated screen would, and no other |
| Terminals.Terminals.KBputc | student-distrib/lib.c:265-285 | keyboard echo, which writes the display only, does the same for the displayed terminal |
| Terminals.Terminals.BackChar | student-distrib/lib.c:78-89 | the cursor of the displayed terminal moves one cell back, across a row edge, but not past the origin |
| Terminals.Terminals.EraseChar | student-distrib/lib.c:66-70 | the character before the cursor is erased on the displayed terminal only |
| Terminals.Terminals.ClearDisplay | student-distrib/lib.c:98-108 | only the displayed terminal is cleared |
| Terminals.Terminals.SwitchTerminal | student-distrib/systemcall.c:11-40 | the pages and user page-table entries after a switch, and -1 with nothing changed for a bad terminal |
| Terminals.Terminals.ShowTerminal | student-distrib/terminal.c:100-126 | a switch changes no terminal's logical screen, and page-table entry t still maps terminal t's page |
| Terminals.Terminals.WipeLine | student-distrib/terminal.c:167-171 | the loop empties one row and leaves the others |
| Terminals.Terminals.SubmitOrWipe | student-distrib/terminal.c:161-172 | the newline is stored and the reader released, or the line is thrown away |
| Terminals.Terminals.RedrawLine | student-distrib/terminal.c:90-96 | Ctrl-L clears the displayed terminal and prints its line again |
| Terminals.Terminals.OnBackspace | student-distrib/terminal.c:144-153 | acts on the three terminals as Backspace on the displayed one |
| Terminals.Terminals.OverrunEnter | student-distrib/terminal.c:161-165 | the store of a second Enter after 128 bytes replaces the first byte of the next terminal's row |
| Terminals.Terminals.OnEnter | student-distrib/terminal.c:156-172 | acts as Enter on the displayed terminal |
| Terminals.Terminals.OnCharacter | student-distrib/terminal.c:156-178 | acts as a key on the displayed terminal, ignored at 127 characters |
| Terminals.Terminals.KBhandler | student-distrib/terminal.c:52-188 | every decoded key acts on the three dedicated terminals as specified |
| Terminals.Terminals.TerminalWrite | student-distrib/terminal.c:279-288 | all bytes go to the process's terminal and to no other |
| Terminals.Terminals.BeginRead | student-distrib/terminal.c:242-245 | a read starts to wait, or is refused for a negative length |
| Terminals.Terminals.CopyOut | student-distrib/terminal.c:255-261 | copies up to nbytes bytes through the first newline, and nothing past them |
| Terminals.Terminals.FinishRead | student-distrib/terminal.c:250-267 | the reader's buffer gets the collected line, the row is emptied and the flags reset |
| Terminals.Terminals.UserStore | student-distrib/systemcall.c:628-629 | a store through the vidmap pointer changes that byte of its own terminal's screen, displayed or not |
| Terminals.Terminals.BootEchoes | student-distrib/terminal.c:197-220 | after boot the echo agreement holds |
| Terminals.Terminals.HandleAll | student-distrib/terminal.c:52-288 | any run of keys, switches, output, stores and reads drives the console exactly as three dedicated terminals |
| FileSystem.BlockWithin | student-distrib/filesystem.c:153-154 | block j of a file is the image block its inode names |
| FileSystem.FileByte | student-distrib/filesystem.c:138-157 | byte o of block j of a file is byte o of the data block that word 1 + j of its inode names, data blocks counted after the boot block and the inodes |
| FileSystem.FilePiece | student-distrib/filesystem.c:153-157 | the bytes of a file that fall inside one block lie in one piece in the image |
| FileSystem.CopyStart | student-distrib/filesystem.c:153-154 | the address computed for a copy is where those bytes of the file lie |
| FileSystem.CopyBlocks | student-distrib/filesystem.c:138-166 | the copy loop stores exactly a slice of the file and nothing else |
| FileSystem.ReadData | student-distrib/filesystem.c:115-170 | the buffer gets exactly file[offset..offset+min(length, size-offset)]; -1 for a null buffer, a bad inode or an offset past the end, with the buffer unchanged |
| FileSystem.ReadFailsIff | student-distrib/filesystem.c:115-135 | a read fails exactly for a number that is no inode or an offset past the end, and else returns as much as there is |
| FileSystem.ReadsCompose | student-distrib/filesystem.c:115-170 | reading n bytes and then m is reading n+m |
| FileSystem.FileRead | student-distrib/systemcall.c:52-62 | a read returns the next bytes of the file and the position after them, and changes neither on an error |
| FileSystem.OpenFile.Read | student-distrib/systemcall.c:52-62 | through an open file, consecutive reads advance along the file |
| FileSystem.Strncmp | student-distrib/lib.c:609-630 | zero if and only if both are the same C string within n characters |
| FileSystem.ReadDentryByName | student-distrib/filesystem.c:57-76 | the first entry of that name, or none |
| FileSystem.ReadDentryByIndex | student-distrib/filesystem.c:87-102 | the entry, or none past the last one |
| DiskImage.EntryAt | student-distrib/filesystem.h:31-45 | a directory entry written out at its 64 bytes is read as the name, type and inode it was made of |
| DiskImage.FileIs | student-distrib/filesystem.c:138-166 | the file read from an image is the one stored, for any numbering of the data blocks that uses none twice |
| DiskImage.LookupIs | student-distrib/filesystem.c:57-76 | a name is found as the entry that bears it |
| DiskImage.RoundTrip | student-distrib/filesystem.c:57-170 | the image of any disk within the limits of the layout is well-formed, every file and entry reads back as stored, and a name is found exactly when an entry bears it |
| DiskImage.InOrderFits | student-distrib/filesystem.h:25-45 | any list of files within the limits has such an image, with the blocks one after the other |
| Grep.FittingLinesReported | syscalls/ece391grep.c:9-66 | with lines of at most 1024 bytes the output is exactly the lines containing the pattern, once each and in order |
| Grep.LinesGiveFile | syscalls/ece391grep.c:30-57 | the lines, each with its newline, are the file |
| Grep.LinesAreLines | syscalls/ece391grep.c:30-57 | and none of them holds a newline |
| Grep.ReportOfTwoLines | syscalls/ece391grep.c:45-48 | what is printed for a file of two lines, byte for byte |
| Grep.UncutReports | syscalls/ece391grep.c:13-55 | the same when the uninitialised byte after the buffer is a newline, as long as that cuts no line |
| Grep.LongLineShows | syscalls/ece391grep.c:27-57 | a line of more than 1024 bytes shows in the output of a search for one byte |
| Grep.StaleCutShows | syscalls/ece391grep.c:31-38 | so does a line cut by such a byte |
| Grep.LinesJoin | syscalls/ece391grep.c:27-57 | a cut inside a line splits exactly that line of the file in two |
| Grep.ReportsAllPatternsIff | syscalls/ece391grep.c:9-66 | the scanner reports exactly the matching lines for all patterns, or just for all patterns of one byte, if and only if no line is longer than 1024 bytes and none is cut |
| Grep.ShownTextIff | syscalls/ece391grep.c:45-48 | a selected line is printed as it is if and only if it has no NUL |
| Grep.MixedLineReported | syscalls/ece391grep.c:45-48 | the report of a line with a NUL and another byte holds a NUL when that byte is searched |
| Grep.NulFileMisreported | syscalls/ece391grep.c:45-48 | a file whose report is never what the scanner prints |
| Grep.Strncmp | syscalls/ece391support.c:35-46 | zero if and only if the pattern occurs at that place before the terminating NUL |
| Grep.Puts | syscalls/ece391support.c:19-22 | the bytes of the line up to its first NUL |
| Grep.StrcpyDown | syscalls/ece391support.c:14-17 | the overlapping downward copy moves the whole string and its NUL |
| Grep.ScanLine | syscalls/ece391grep.c:30-32 | the first newline at or after the start of the line, or the end of the buffer |
| Grep.SearchLine | syscalls/ece391grep.c:40-51 | prints file name, colon, the line up to its first NUL and newline once if and only if the line contains the pattern |
| Grep.CarryDown | syscalls/ece391grep.c:33-38 | the unfinished line moves to the front of the buffer byte for byte |
| Grep.ReportLine | syscalls/ece391grep.c:40-52 | one line of the file is accounted for, and the buffer still holds the rest |
| Grep.ScanOne | syscalls/ece391grep.c:30-57 | one turn of the line loop: what it printed plus what is still owed is what was owed before |
| Grep.MatchAt | syscalls/ece391grep.c:43-44 | the two tests succeed if and only if the pattern occurs at that place of the line |
| Grep.ScanBuffer | syscalls/ece391grep.c:27-57 | one buffer: output plus what is owed from the kept bytes on is what was owed from its start, and what becomes of the byte after the buffer |
| Grep.ScanFilled | syscalls/ece391grep.c:27-57 | the same with and without a newline after the buffer |
| Grep.Refill | syscalls/ece391grep.c:22-27 | after the read the buffer holds the file from the same place on, full or up to the end of the file |
| Grep.ScanFile | syscalls/ece391grep.c:20-65 | the read loop terminates and prints everything owed, or reports a failed read |
| Grep.DoOneFile | syscalls/ece391grep.c:9-66 | for every file and any initial buffer it terminates, and never prints a NUL; for a NUL-free file the output is determined by the file and the byte after the buffer, wherever the reads cut it; -1 and the message when the read fails |
| Blink.ClosedForm | fish/blink.S:64-90 | n ticks after an add, for all 16-bit lengths, a record is lit exactly when n mod (on+off) < on, and the countdown is what is left of the phase |
| Blink.SparedRecordTicks | fish/blink.S:49-300 | over any run of adds, removes, syncs and tasklets that spares a record, the record gets exactly the ticks of the tasklets in the run |
| Blink.SyncedStaysInStep | fish/blink.S:267-275 | two synced records keep equal countdown and status over any number of ticks |
| Blink.SyncedPairStaysInStep | fish/blink.S:240-300 | after a successful sync the two records stay in step over any run that spares both |
| Blink.AddsPrepend | fish/blink.S:159-162 | adds for which there is room all succeed and stand newest first |
| Blink.SucceedsIff | fish/blink.S:105-300 | an add returns 0 exactly for a place on the screen with room in the pool, a remove exactly when a record stands there, a sync exactly when one stands at both places; what returns -1 changes nothing |
| Blink.AddThenRemove | fish/blink.S:105-237 | a remove takes back the add before it |
| Blink.TickScreenAt | fish/blink.S:68-82 | a tick shows the new character of each record that fires and touches no other record's cell |
| Blink.TickKeepsAgreement | fish/blink.S:49-99 | a tick keeps screen and status in agreement |
| Blink.AgreementOverRuns | fish/blink.S:49-237 | over any run of adds at new places, removes and ticks, every record's cell shows the character of its status |
| Blink.SyncAgreesIff | fish/blink.S:277-285 | after a sync they agree if and only if the source is off or the characters are equal |
| Blink.SyncMisleads | fish/blink.S:277-285 | two adds and a sync after which a lit record shows its off character |
| Blink.RecordBlinks | fish/blink.S:49-138 | n ticks after its add, a record's cell shows the on character exactly in the first part of each period |
| Blink.OtherCellsStay | fish/blink.S:43-300 | over any run, a cell where no record stands or is added keeps what it shows |
| Blink.SoundListFits | fish/fish.c:161-171 | the list has at most 2000 nodes, and 2000 exactly when no slot is free |
| Blink.InsertIsSoundIff | fish/blink.S:140-162 | an insertion keeps the list acyclic and its nodes equal to the used slots if and only if the location is not 0 |
| Blink.UnlinkIsSound | fish/blink.S:214-222 | removing a node keeps the list sound and deletes exactly that record |
| Blink.Pool.Malloc | fish/fish.c:161-171 | the first free slot; null if and only if all slots are in use |
| Blink.Pool.IoctlAdd | fish/blink.S:105-184 | the whole new state of an add, and -1 with nothing changed exactly for a bad location or a full pool |
| Blink.Pool.TwoAddsAtZero | fish/blink.S:105-184 | two adds at location 0 make a node its own successor |
| Blink.Pool.FindHelper | fish/blink.S:351-379 | the newest record at a location |
| Blink.Pool.FindPrev | fish/blink.S:206-212 | the walk ends at the link that points to the node |
| Blink.Pool.IoctlRemove | fish/blink.S:187-237 | deletes the newest record at the location from the sequence, -1 when there is none |
| Blink.Pool.IoctlSync | fish/blink.S:240-300 | the target takes over lengths, countdown and status; -1 when either is missing |
| Blink.Pool.IoctlFind | fish/blink.S:302-349 | a copy of the newest record at the location, or -1 |
| Blink.Pool.RtcTasklet | fish/blink.S:49-99 | ticks every record once and updates the screen |
| Blink.Pool.PerformAll | fish/blink.S:49-349 | any run of operations acts on the list in the pool as on the sequence of records |
| Frames.GridPlaces | fish/fish.c:99-148 | exactly one add per cell where either picture has a character, none elsewhere, in row-major order |
| Frames.PicturesListed | fish/fish.c:79-149 | pictures that fit the right half of the screen are all added to an empty list, last cell first |
| Frames.PicturesShown | fish/fish.c:79-149 | after n ticks each inked cell shows the first picture when n mod 30 < 15 and the second otherwise, and every other cell what it showed before |
| Frames.SplitAdvances | fish/fish.c:103-117 | how one more byte moves through the lines of a file |
| Frames.AdvanceReads | fish/fish.c:103-117 | after the reads for a column, c is the cell's character, or a newline past the end of the row |
| Frames.CellCall | fish/fish.c:123-128 | the add for a cell, padded with a space where one picture has ended |
| Frames.RowCalls | fish/fish.c:100-131 | the inner loop terminates, issues the adds of one row and leaves both files at their next row |
| Frames.FrameCalls | fish/fish.c:79-149 | add_frames terminates for all finite files and issues exactly the adds of the two grids |
| Scheduling.OnlyTopChanges | student-distrib/pit.c:32-107 | a step changes only the current stack, and there only its top process |
| Scheduling.BelowIsUntouched | student-distrib/systemcall.c:194-267 | over any run in which a process lives, everything below it on its stack is unchanged |
| Scheduling.ExecuteReturnsToParent | student-distrib/systemcall.c:303-424 | execute, any interleaving while the child lives, and the child's halt give the parent its stack and its saved context back |
| Scheduling.ReadStreams | student-distrib/systemcall.c:440-452 | a read keeps the bytes delivered so far equal to the file's prefix up to the position |
| Scheduling.StepStreams | student-distrib/systemcall.c:163-580 | every step keeps that for every descriptor of every process, and descriptors 0 and 1 in place |
| Scheduling.OpenThenClose | student-distrib/systemcall.c:501-579 | open takes the lowest free descriptor from 2 on, at position 0, and leaves the others; close undoes it |
| Scheduling.OpenThenRead | student-distrib/systemcall.c:517-548 | the first read after an open delivers the beginning of the file that was named |
| Descriptors.OpenFailsIff | student-distrib/systemcall.c:486-549 | an open of a name that is not standard fails exactly when descriptors 2 to 7 are in use, no entry has the name, or its type is not 0, 1 or 2 |
| Descriptors.StandardNames | student-distrib/systemcall.c:493-500 | the names taken for the standard descriptors are those that begin with stdin or stdout |
| Descriptors.OpenGives | student-distrib/systemcall.c:517-546 | a new descriptor is the clock exactly for type 0, the directory exactly for type 1 and the entry's file exactly for type 2, at position 0 |
| Descriptors.CloseOnce | student-distrib/systemcall.c:567-580 | a close succeeds exactly for a used descriptor from 2 to 7, frees it and no other, and cannot be repeated |
| Descriptors.CloseFrees | student-distrib/systemcall.c:567-580 | the call leaves the running process with that descriptor unused, and all else as it was |
| Descriptors.ReadRefused | student-distrib/systemcall.c:440-449 | a read of descriptor 1, out of range, of a negative length or of an unused descriptor returns -1 and does nothing |
| Descriptors.StepKeepsFd | student-distrib/systemcall.c:440-580 | no step of any process changes an open descriptor of another one, and only its own reads move a directory |
| Descriptors.DirectoryOverRuns | student-distrib/systemcall.c:75-95 | over any interleaving an open directory moves on by one place per read and begins again after the last entry and the end mark |
| Descriptors.Listing | student-distrib/systemcall.c:75-95 | the law syscalls/ece391ls.c rests on: after k reads in any interleaving the next one gives the name of entry k, returns 0 at the end and begins again |
| Descriptors.OpenStored | student-distrib/systemcall.c:501-548 | the open of a stored name gives the running process a descriptor of that entry |
| Descriptors.StoredFileRead | student-distrib/systemcall.c:52-62 | over any run what came through a descriptor of a stored file is the stored bytes up to its position |
| Descriptors.NextBytes | student-distrib/systemcall.c:52-62 | and the next read returns the stored bytes that follow, as many as were asked for or are left |
| Programs.LooksUpFirstWord | student-distrib/systemcall.c:324-334 | the name looked up is the first word of the command, up to a NUL or a blank and at most 32 characters |
| Programs.EntryLoads | student-distrib/systemcall.c:349-367 | a command whose first word names an entry loads exactly when that file begins with 7F 45 4C 46 and has 24 bytes |
| Programs.StartsIff | student-distrib/systemcall.c:309-395 | execute starts a process exactly when one of six numbers is unused and the first word names such a file of at most 3,899,392 bytes |
| Programs.StartedProcess | student-distrib/systemcall.c:314-411 | the new process has the least unused number, no exception, the two standard descriptors and six free ones, on top of its parent |
| Scheduling.InvariantsOverRuns | student-distrib/systemcall.c:52-580 | over any interleaving of all threads, what an open file delivered is its prefix of length file_position, which never exceeds the length, no two processes share a number, and no live process is flagged |
| Scheduling.ReachableFromBoot | student-distrib/systemcall.c:194-248 | the same from boot on, and a parent gets exactly the status its child halted with, and 256 if and only if an exception ended it |
| Scheduling.StepDistinct | student-distrib/systemcall.c:314-322 | no two live processes share a number |
| Scheduling.PopFrees | student-distrib/systemcall.c:224-242 | a halt makes a process number free |
| Scheduling.RestartNeverFails | student-distrib/pit.c:32-75 | over any run, a restart that is due finds a free number, and so does every tick while the other threads have their shells |
| Scheduling.RestartsFromBoot | student-distrib/pit.c:32-75 | that holds in every state reachable from boot |
| Scheduling.FirstStartCanFail | student-distrib/pit.c:65-75 | a run in which the first start of thread 1's shell fails |
| Scheduling.LongShellFaults | student-distrib/systemcall.c:353-395 | a disk image of three blocks whose shell passes every test and faults at the first tick |
| Scheduling.TickOrExit | student-distrib/pit.c:32-78 | a tick brings a thread nearer or consumes one due restart, a root exit makes one due |
| Scheduling.NoThreadStarves | student-distrib/pit.c:32-78 | in a window with k root-shell exits every thread is current at some point within k+3 ticks |
| Kernel.FreeIsNull | student-distrib/systemcall.c:314-322 | a table entry is NULL if and only if its number is on no stack |
| Kernel.ExecutedSim | student-distrib/systemcall.c:369-398 | the state after the commit point is the table with a process pushed on the current thread's stack |
| Kernel.HaltedSim | student-distrib/systemcall.c:212-248 | the state after a halt is the table with the current stack popped |
| Kernel.ResumedSim | student-distrib/pit.c:58-90 | after a thread switch, descriptor pointer, page directory and kernel stack are those of the thread's top process |
| Kernel.ParentIsLive | student-distrib/systemcall.c:376-381 | the parent of a live process is live and on the same terminal |
| Kernel.LeafIsLive | student-distrib/pit.c:59-81 | the leaf of a started thread, cur_pid or PIDstore[t], is live and on terminal t |
| Kernel.ChainsDoNotBranch | student-distrib/systemcall.c:376-381 | no process has two live children, and no terminal two root shells |
| Kernel.LiveProcessesAreChains | student-distrib/systemcall.c:376-381 | in every reachable state the live processes form at most three parent chains without cycle or branch, each from a live leaf cur_pid or PIDstore[t] through live processes of terminal t to a root shell |
| Kernel.MemoryIsDisjoint | student-distrib/systemcall.c:279-373 | program pages are at 8MB + 4MB * pid, apart from the kernel's page and video memory; the kernel stacks with their control blocks are 8KB each inside the kernel's page; no two processes share either |
| Kernel.Kernel.RunningMemory | student-distrib/systemcall.c:232-398 | while a process runs, in every reachable state, the program page-directory entry maps 8MB + 4MB * cur_pid, apart from the kernel and from the pages and stacks of all other live processes, and the kernel stack pointer is that of its own stack |
| Kernel.ReadStoresIff | student-distrib/systemcall.c:75-95 | a read stores no more than nbytes if and only if it is not a directory entry with a longer name |
| Kernel.DirectoryReadStoresMore | student-distrib/systemcall.c:88-92 | a read of 0 bytes that stores a name |
| Kernel.Kernel.RunningProcess | student-distrib/systemcall.c:376-382 | while a process runs, cur_pid and fdt are its own and its parent_terminal is the current thread |
| Kernel.Kernel.constructor | student-distrib/systemcall.c:107-153 | the boot state corresponds to three empty stacks |
| Kernel.Kernel.ScanFree | student-distrib/systemcall.c:314-317 | the first NULL table entry |
| Kernel.ParseName | student-distrib/systemcall.c:324-334 | the name is the first word of the command, at most 32 characters, padded with NULs |
| Kernel.Kernel.CheckExecutable | student-distrib/systemcall.c:353-367 | passes if and only if the file starts with the magic and reaches byte 24 |
| Kernel.Kernel.InitializeFdt | student-distrib/systemcall.c:163-184 | the process gets standard input and output and six unused descriptors, and fdt points to it |
| Kernel.Kernel.ExecuteProgram | student-distrib/systemcall.c:303-398 | sys_execute is all or nothing but for one case: its errors are exactly a NULL command, a full table or a name that is no executable, and leave the whole state unchanged; a file too long for its page faults after the commit point, in the state given |
| Kernel.Kernel.CheckCommand | student-distrib/systemcall.c:309-367 | the tests before the commit point pass exactly for an executable file and a free process number |
| Kernel.LoadFitsIff | student-distrib/systemcall.c:393-395 | the copy of a program stays on its page if and only if the file has at most 4MB - 0x48000 bytes |
| Kernel.Kernel.Load | student-distrib/systemcall.c:393-395 | the program is stored from 0x48000 of its page on, or the copy faults, exactly when it is too long |
| Kernel.Kernel.StartProgram | student-distrib/systemcall.c:369-411 | past the commit point read_data cannot fail; with a fault no context is saved and esp0 is the old one |
| Kernel.FaultLeaves | student-distrib/systemcall.c:369-395 | what a fault in the copy leaves: the new process current, on its own page and descriptors, with the context and kernel stack pointer of before |
| Kernel.Kernel.SysExecute | student-distrib/systemcall.c:303-398 | execute pushes on the current stack, fails without effect, or faults exactly for a program too long for its page |
| Kernel.Kernel.SysHalt | student-distrib/systemcall.c:194-248 | halt pops the current stack, hands on status plus exception flag, and resumes the context the parent left |
| Kernel.Kernel.ExceptionHandler | student-distrib/idt_init.c:11-15 | an exception pops the stack and hands 256 to the parent |
| Kernel.Kernel.PitHandler | student-distrib/pit.c:32-107 | the timer interrupt restarts a due shell or moves to the next thread; the state it leaves when the shell cannot be started, and when it faults |
| Kernel.Kernel.SysOpen | student-distrib/systemcall.c:486-557 | the returned descriptor and the new table, for standard names, missing names, full tables and all file types |
| Kernel.Kernel.SysClose | student-distrib/systemcall.c:567-580 | frees the descriptor, refusing 0, 1 and unused ones |
| Kernel.Kernel.ReadFile | student-distrib/systemcall.c:52-62 | the next bytes of the file, appended to what the descriptor delivered |
| Kernel.Kernel.DirectoryRead | student-distrib/systemcall.c:75-95 | the name of the next entry; 0 and back to the first entry at the end |
| Kernel.Kernel.StrcpyFile | student-distrib/filesystem.c:33-46 | copies at most 32 characters and no NUL |
| Kernel.Kernel.SysRead | student-distrib/systemcall.c:440-452 | value, bytes and new state of a read on any descriptor |
| Kernel.Kernel.SysVidmap | student-distrib/systemcall.c:611-632 | the address handed out is 512MB + 4KB * terminal, the page of the running process's terminal; refused exactly outside the 4MB program page at 128MB |
| Kernel.Kernel.PerformAll | student-distrib/systemcall.c:194-580 | any run of interrupts, exceptions and system calls in which no load faults drives the three process stacks, with page directory, descriptor pointer and kernel stack those of the running process |
| System.RunSplits | student-distrib/systemcall.c:440-476 | every run of kernel and console together is a run of the process stacks beside a run of the three terminals |
| System.SparedTerminalStays | student-distrib/systemcall.c:376-381 | a terminal on which nothing is typed and whose own thread does not call on it stays exactly as it is, whatever processes of other threads do |
| System.WriteIsShown | student-distrib/systemcall.c:464-476 | a write to descriptor 1 puts every byte on the screen of the current thread's terminal and changes nothing else; a write to another descriptor shows nothing |
| System.ReadsAndStores | student-distrib/terminal.c:242-268 | what waiting, the copy-out and a vidmap store do to that terminal, and that the others stay |
| System.InputsAreSeen | student-distrib/systemcall.c:440-476 | the inputs that reach a terminal over a run are, in order, the keys typed while it is displayed and the calls made while its thread is current |
| System.TerminalRuns | student-distrib/systemcall.c:440-476 | each terminal ends as a dedicated one that got exactly those |
| System.WrittenIsLaidOut | student-distrib/terminal.c:279-288 | over any interleaving, a terminal on which nothing is typed or stored shows the layout of exactly the bytes its thread's processes wrote to descriptor 1 |
| System.ProcessReadsItsLine | student-distrib/terminal.c:242-268 | a process that reads from descriptor 0 gets the line edited on the terminal of its thread, in any interleaving of processes, threads and keys |
| System.System.Terminal | student-distrib/lib.c:297 | the terminal a running process is attached to is that of the current thread |
| System.System.SysWrite | student-distrib/systemcall.c:464-476 | output through descriptor 1 reaches that terminal and no other; every other descriptor reaches none |
| System.System.PerformAll | student-distrib/systemcall.c:194-580 | any run of interrupts, system calls and keys drives the stacks and the terminals side by side |

## Left out

- Preemption inside a handler, the PIC, RTC, GDT, IDT and TSS descriptor formats, port I/O and multiboot parsing.
- The hardware cursor: back_char does not update it on a row change (student-distrib/lib.c:79-86).
- Scan codes, modifier toggles and caps lock; the handler is entered with a decoded key.
- sys_getargs and the copy of arguments in sys_execute: the argument buffer is uninitialised for a command without arguments.
- sys_sethandler and sys_sigreturn, which only return an error, and what the clock driver returns.
- The contents and entry point of loaded programs, and the loop and error messages of the main functions of grep and fish.
- The text an exception handler prints before it halts the process.
- The calls of the close routines in sys_halt and sys_close, which do nothing to the modelled state.
- printf beyond the `%#x` conversion, memset_word and memset_dword.
- SysRead: the result of a terminal or clock read is the parameter `typed`; the terminal side is in module `System`. Descriptor 8 is excluded, because what the words after the table mean as a descriptor is not known.
- SysClose: descriptor 8 is excluded, as for SysRead.
- DoOneFile: the failed open and its message are not modelled; for a file with NULs the output is only known to hold none, because an unfinished line is carried over up to its first NUL and mixed with what the buffer held before.
- Strncmp: the sign of the difference is not stated, as no caller uses it.
- FrameCalls: the reads go to a byte stream of their own, and the calls of mp1_ioctl are collected in a sequence that `Frames.PicturesShown` runs.
- IoctlAdd: the copies from and to user memory cannot fail and are not modelled; the record's fields the caller leaves uninitialised are 0 in `Frames.CellOps`, and the add overwrites both.
- SubmitOrWipe: the Enter that stores past a full keyboard row is not part of it; `Tty.OverrunsIff` says exactly when that is, and `Terminals.Terminals.OverrunEnter` what it does to the next row. What lies behind the last row is not known.
- OnEnter: as SubmitOrWipe.
- KBhandler: as SubmitOrWipe.
- HandleAll: as SubmitOrWipe and CopyOut; `Tty.DisciplineOverRuns` gives the runs in which neither happens.
- CopyOut: more than 128 bytes from a row without newline would be read past the row; that cannot happen on a disciplined terminal (`Tty.OverrunsIff`).
- FinishRead: as CopyOut.
- Memcpy: ranges that meet are not covered, as the source's comment on memmove says.
