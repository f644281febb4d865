/**
  Finding and loading the program a command names: the part of execute that works on the file
  system and on the memory of the new program.
 */
module Loader {
  import opened Common
  import opened CStrings
  import opened CommandLine
  import opened FileSystem
  import opened Layout
  import opened Descriptors

  const COM_BUF_SIZE: nat := 128
  const HEADER_SIZE: nat := 40

  // EID0..EID3
  const ELF_MAGIC: seq<byte> := [0x7F, 0x45, 0x4C, 0x46]

  // ---------- what a command names ----------

  /** The bytes a read of n bytes delivers at the start of a file. */
  ghost function Beginning(v: Volume, inode: nat, n: nat): (bytes: seq<byte>)
    requires IsVolume(v) && inode < |v.inodes| && !ReadFails(v, inode, 0, n)
    ensures |bytes| <= n
  {
    var r := Deliverable(v.inodes[inode].length, 0, n);
    if r == 0 then [] else Fetched(v, inode, 0, r)
  }

  /** The header buffer after the first bytes of a file were read into it; what a short file does
      not overwrite is what the stack held. */
  ghost function HeaderOf(start: seq<byte>, garbage: seq<byte>): (h: seq<byte>)
    requires |garbage| == HEADER_SIZE && |start| <= HEADER_SIZE
    ensures |h| == HEADER_SIZE
  {
    Splice(garbage, 0, start)
  }

  ghost predicate StartsAsProgram(v: Volume, inode: nat, garbage: seq<byte>)
    requires IsVolume(v) && inode < |v.inodes| && |garbage| == HEADER_SIZE
  {
    && !ReadFails(v, inode, 0, HEADER_SIZE)
    && HeaderOf(Beginning(v, inode, HEADER_SIZE), garbage)[..4] == ELF_MAGIC
  }

  /** The command names a regular file that starts like a program. */
  ghost predicate Executable(v: Volume, name: seq<byte>, garbage: seq<byte>)
    requires Sound(v) && |garbage| == HEADER_SIZE
  {
    IsRegular(v, name) && StartsAsProgram(v, InodeOf(v, name), garbage)
  }

  // ---------- memory ----------

  // PROG_IMAGE_LOCATION - MEM_128
  const PROGRAM_OFFSET: nat := 0x4_8000
  // The part of the user page from there on.
  const PAGE_ROOM: nat := FOURMB - PROGRAM_OFFSET

  /** What is mapped from the start of the user page on: that page, and right behind it the pages
      through which the terminals reach their screens. */
  const WINDOW: nat := FOURMB + NUM_TERM * PAGES_SIZE
  const ROOM: nat := WINDOW - PROGRAM_OFFSET

  /** How loading ends: at the end of the file, at a missing block, or at an address that is not
      mapped. */
  datatype Loading = Done | Broken | Faulted

  ghost function LoadingOf(v: Volume, inode: nat): Loading
    requires IsVolume(v) && inode < |v.inodes|
  {
    var length := v.inodes[inode].length;
    if length > FOURKB * DATB_SIZE || !AllGood(v, inode, 0, Deliverable(length, 0, ROOM)) then Broken
    else if length > ROOM then Faulted
    else Done
  }

  lemma {:induction false} BadBlockIsBad(v: Volume, inode: nat, r: nat, k: nat)
    requires IsVolume(v) && inode < |v.inodes| && AllGood(v, inode, 0, r) && FOURKB * k < r
    ensures Good(v, inode, FOURKB * k)
  {
    if FOURKB * k < r - 1 {
      BadBlockIsBad(v, inode, r - 1, k);
    }
  }

  lemma AllGoodIsOk(v: Volume, inode: nat)
    requires IsVolume(v) && inode < |v.inodes| && 0 <= v.inodes[inode].length <= FOURKB * DATB_SIZE
    ensures AllGood(v, inode, 0, v.inodes[inode].length) <==> FileOk(v, inode)
  {
    var n := v.inodes[inode];
    if FileOk(v, inode) {
      FetchedIsContent(v, inode, 0, n.length);
    } else {
      var k :| 0 <= k < BlocksFor(n.length) && !(0 <= n.blocks[k] < DataCount(v));
      assert (FOURKB * k) / FOURKB == k;
      if AllGood(v, inode, 0, n.length) {
        BadBlockIsBad(v, inode, n.length, k);
      }
    }
  }

  /** Loading reaches the end of the file exactly when all its blocks exist and it fits the window. */
  lemma LoadsIff(v: Volume, inode: nat)
    requires IsVolume(v) && inode < |v.inodes| && Readable(v, inode)
    ensures LoadingOf(v, inode).Done? <==> FileOk(v, inode) && v.inodes[inode].length <= ROOM
    ensures FileOk(v, inode) ==> !LoadingOf(v, inode).Broken?
  {
    var length := v.inodes[inode].length;
    if length <= FOURKB * DATB_SIZE {
      AllGoodIsOk(v, inode);
      if FileOk(v, inode) {
        FetchedIsContent(v, inode, 0, Deliverable(length, 0, ROOM));
      }
    }
  }

  /** Whatever is in memory, a program with this content, loaded to its place, leaves the pages of the
      terminals behind its own page as they are. */
  ghost predicate LeavesScreens(content: seq<byte>)
    requires |content| <= ROOM
  {
    forall window: seq<byte> :: |window| == WINDOW ==>
      Splice(window, PROGRAM_OFFSET, content)[FOURMB..] == window[FOURMB..]
  }

  /** A loaded program leaves the screens alone if and only if it fits the user page from its load
      address on. */
  lemma LoadStaysInPageIff(content: seq<byte>)
    requires |content| <= ROOM
    ensures LeavesScreens(content) <==> |content| <= PAGE_ROOM
  {
    if |content| > PAGE_ROOM {
      var other: byte := (content[PAGE_ROOM] as int + 1) % 0x100;
      var window: seq<byte> := seq(WINDOW, i => other);
      assert Splice(window, PROGRAM_OFFSET, content)[FOURMB..][0] == content[PAGE_ROOM];
      assert window[FOURMB..][0] == other;
    } else {
      forall window: seq<byte> | |window| == WINDOW
        ensures Splice(window, PROGRAM_OFFSET, content)[FOURMB..] == window[FOURMB..]
      {
        StaysBelow(window, PROGRAM_OFFSET, content, FOURMB);
      }
    }
  }

  lemma StaysBelow(s: seq<byte>, at: nat, t: seq<byte>, end: nat)
    requires at + |t| <= end <= |s|
    ensures Splice(s, at, t)[end..] == s[end..]
  {
  }

  // ---------- the whole command ----------

  /** The command launches its program. */
  ghost predicate Runnable(v: Volume, line: seq<byte>, garbage: seq<byte>)
    requires Sound(v) && |garbage| == HEADER_SIZE
  {
    Executable(v, ProgramName(line), garbage) && LoadingOf(v, InodeOf(v, ProgramName(line))).Done?
  }

  // "shell"
  const SHELL: seq<byte> := [115, 104, 101, 108, 108]

  /** The volume holds an executable shell that fits its page. */
  ghost predicate ShellRuns(v: Volume)
    requires Sound(v)
  {
    && IsFile(v, SHELL) && 4 <= |FileContent(v, SHELL)| <= PAGE_ROOM
    && FileContent(v, SHELL)[..4] == ELF_MAGIC
  }

  lemma ShellParses()
    ensures SHELL == Text("shell")
    ensures ProgramName(SHELL) == SHELL && Args(SHELL) == []
  {
    ParseOfAssembled([], SHELL, [], []);
    assert [] + (SHELL + ([] + [])) == SHELL;
  }

  /** An undamaged file of at least four bytes starts as a program exactly if these are the magic
      bytes, whatever the stack held. */
  lemma MagicDecides(v: Volume, inode: nat, garbage: seq<byte>)
    requires IsVolume(v) && inode < |v.inodes| && FileOk(v, inode) && |Content(v, inode)| >= 4
    requires |garbage| == HEADER_SIZE
    ensures StartsAsProgram(v, inode, garbage) <==> Content(v, inode)[..4] == ELF_MAGIC
  {
    var r := Deliverable(v.inodes[inode].length, 0, HEADER_SIZE);
    SoundReadFails(v, inode, 0, HEADER_SIZE);
    FetchedIsContent(v, inode, 0, r);
    var start := Beginning(v, inode, HEADER_SIZE);
    assert start == Content(v, inode)[0..r];
    assert HeaderOf(start, garbage)[..4] == start[..4] == Content(v, inode)[..4];
  }

  lemma ShellIsRunnable(v: Volume, garbage: seq<byte>)
    requires Sound(v) && ShellRuns(v) && |garbage| == HEADER_SIZE
    ensures Runnable(v, SHELL, garbage) && Args(SHELL) == []
  {
    ShellParses();
    MagicDecides(v, InodeOf(v, SHELL), garbage);
    LoadsIff(v, InodeOf(v, SHELL));
  }

  lemma ShellLeavesScreens(v: Volume)
    requires Sound(v) && ShellRuns(v)
    ensures LeavesScreens(FileContent(v, SHELL))
  {
    LoadStaysInPageIff(FileContent(v, SHELL));
  }

  method FindProgram(disk: Disk, command: array<byte>, header: array<byte>, ghost line: seq<byte>)
    returns (inode: int, args: seq<byte>)
    requires disk.Valid() && Sound(disk.vol) && IsLine(command[..], line) && |line| < COM_BUF_SIZE
    requires header.Length == HEADER_SIZE && header != command
    modifies header
    ensures inode == -1 <==> !Executable(disk.vol, ProgramName(line), old(header[..]))
    ensures inode != -1 ==> inode == InodeOf(disk.vol, ProgramName(line))
    ensures args == Args(line)
  {
    var filename := new byte[COM_BUF_SIZE];
    var argBuf := new byte[COM_BUF_SIZE];
    var parsed := ParseArgs(command, filename, argBuf, line);
    NamesAreStrings(line);
    SplicedName(argBuf[..], Args(line));
    var n := Strlen(argBuf, 0, Args(line));
    args := argBuf[..n];
    SplicedName(filename[..], ProgramName(line));
    inode := FindExecutable(disk, filename, header, ProgramName(line));
  }

  method FindExecutable(disk: Disk, filename: array<byte>, header: array<byte>, ghost name: seq<byte>)
    returns (inode: int)
    requires disk.Valid() && Sound(disk.vol) && IsCString(filename[..], 0, name)
    requires header.Length == HEADER_SIZE && header != filename
    modifies header
    ensures inode == -1 <==> !Executable(disk.vol, name, old(header[..]))
    ensures inode != -1 ==> inode == InodeOf(disk.vol, name)
  {
    var found, entry := disk.ReadDentryByName(filename, 0, name);
    if found == -1 {
      return -1;
    }
    if entry.filetype != TXT_FILE {
      return -1;
    }
    ghost var i := InodeOf(disk.vol, name);
    var elf := CheckHeader(disk, entry.inodeNum, header);
    if !elf {
      return -1;
    }
    inode := entry.inodeNum;
  }

  method CheckHeader(disk: Disk, inode: int, header: array<byte>) returns (elf: bool)
    requires disk.Valid() && 0 <= inode < |disk.vol.inodes| && Readable(disk.vol, inode)
    requires header.Length == HEADER_SIZE
    modifies header
    ensures elf <==> StartsAsProgram(disk.vol, inode, old(header[..]))
  {
    disk.ValidIsMapped();
    InodeIsUint32(disk, inode);
    ReadableReading(disk.image, disk.vol, inode, 0, HEADER_SIZE);
    var r, _ := disk.ReadData(inode, 0, header, 0, HEADER_SIZE);
    if r == -1 {
      return false;
    }
    ghost var h := HeaderOf(Beginning(disk.vol, inode, HEADER_SIZE), old(header[..]));
    assert header[..] == h;
    elf := header[0] == 0x7F && header[1] == 0x45 && header[2] == 0x4C && header[3] == 0x46;
    assert h[..4] == [h[0], h[1], h[2], h[3]];
  }

  lemma InodeIsUint32(disk: Disk, inode: nat)
    requires disk.Valid() && inode < |disk.vol.inodes|
    ensures inode < 0x1_0000_0000
  {
    assert |disk.image| == DataAddr(|disk.vol.inodes|) + |disk.vol.data|;
  }

  /** Reads a program to its place in the user page.  The kernel asks for up to 4 MB; where a longer
      file would be stored at an address that is not mapped, this stops and says so. */
  method Load(disk: Disk, inode: int, window: array<byte>) returns (l: Loading)
    requires disk.Valid() && 0 <= inode < |disk.vol.inodes| && Readable(disk.vol, inode) && window.Length == WINDOW
    modifies window
    ensures l == LoadingOf(disk.vol, inode)
    ensures l.Done? ==> FileOk(disk.vol, inode) && |Content(disk.vol, inode)| <= ROOM
                        && window[..] == Splice(old(window[..]), PROGRAM_OFFSET, Content(disk.vol, inode))
    ensures window[..PROGRAM_OFFSET] == old(window[..PROGRAM_OFFSET])
  {
    ghost var v, before := disk.vol, window[..];
    disk.ValidIsMapped();
    InodeIsUint32(disk, inode);
    LoadsIff(v, inode);
    ReadableReading(disk.image, v, inode, 0, ROOM);
    var r, _ := disk.ReadData(inode, 0, window, PROGRAM_OFFSET, ROOM);
    assert window[..PROGRAM_OFFSET] == before[..PROGRAM_OFFSET];
    if r == -1 {
      return Broken;
    }
    var length := I32(disk.image, InodeAddr(inode));
    assert length == v.inodes[inode].length by {
      assert DecodesInode(disk.image, v, inode, 0);
    }
    if length > ROOM {
      return Faulted;
    }
    l := Done;
    assert window[..] == Splice(before, PROGRAM_OFFSET, Content(v, inode)) by {
      SoundReading(disk.image, v, inode, 0, ROOM);
      assert Content(v, inode)[0..length] == Content(v, inode);
    }
  }

  lemma NamesAreStrings(line: seq<byte>)
    requires forall k :: 0 <= k < |line| ==> !Ends(line[k])
    ensures NUL !in ProgramName(line) && NUL !in Args(line)
  {
  }

  lemma SplicedName(buf: seq<byte>, text: seq<byte>)
    requires |text| + 1 <= |buf| && buf[..|text| + 1] == text + [NUL] && NUL !in text
    ensures IsCString(buf, 0, text)
    ensures |text| <= |buf| && buf[..|text|] == text
  {
    assert buf[0..0 + |text|] == (text + [NUL])[..|text|];
    assert buf[|text|] == buf[..|text| + 1][|text|];
    CStringIff(buf, 0, text);
  }

  // ---------- programs that do not load ----------

  // "p"
  const EXAMPLE: seq<byte> := [112]

  function Zeros(n: nat): (z: seq<byte>)
    ensures |z| == n
  {
    seq(n, i => 0)
  }

  /** A volume with one program, whose one data block starts with the magic bytes. */
  function OneProgram(length: nat, blocks: seq<int>): Volume {
    Volume(1,
           seq(NUMDIR, i requires 0 <= i < NUMDIR =>
                 if i == 0 then Dentry(EXAMPLE + Zeros(NAMELEN - 1), TXT_FILE, 0) else Dentry(Zeros(NAMELEN), 0, 0)),
           [Inode(length, blocks), Inode(0, blocks)],
           ELF_MAGIC + Zeros(FOURKB - 4))
  }

  lemma OneProgramIsSound(length: nat, blocks: seq<int>)
    requires |blocks| == DATB_SIZE && length <= FOURKB * DATB_SIZE
    requires forall k :: 0 <= k < DATB_SIZE ==> 0 <= blocks[k] != 1
    ensures var v := OneProgram(length, blocks);
      Sound(v) && DataCount(v) == 1 && IsRegular(v, EXAMPLE) && InodeOf(v, EXAMPLE) == 0
  {
    var v := OneProgram(length, blocks);
    FieldTextUnique(EXAMPLE + Zeros(NAMELEN - 1), EXAMPLE);
    FieldTextUnique(Zeros(NAMELEN), []);
    assert Name(v, 0) == EXAMPLE && Lookup(v, EXAMPLE) == 0;
  }

  lemma OneProgramStarts(length: nat, blocks: seq<int>, garbage: seq<byte>)
    requires |blocks| == DATB_SIZE && 4 <= length <= FOURKB * DATB_SIZE && blocks[0] == 0
    requires forall k :: 0 <= k < DATB_SIZE ==> 0 <= blocks[k] != 1
    requires |garbage| == HEADER_SIZE
    ensures Sound(OneProgram(length, blocks)) && Executable(OneProgram(length, blocks), EXAMPLE, garbage)
  {
    var v := OneProgram(length, blocks);
    OneProgramIsSound(length, blocks);
    var r := Deliverable(length, 0, HEADER_SIZE);
    FirstBlockBytes(v, r);
    var start := Beginning(v, 0, HEADER_SIZE);
    assert HeaderOf(start, garbage)[..4] == start[..4] == ELF_MAGIC;
  }

  lemma {:induction false} FirstBlockBytes(v: Volume, r: nat)
    requires IsVolume(v) && v.inodes != [] && r <= FOURKB && v.inodes[0].blocks[0] == 0 < DataCount(v)
    ensures AllGood(v, 0, 0, r) && Fetched(v, 0, 0, r) == v.data[..r]
  {
    if r > 0 {
      FirstBlockBytes(v, r - 1);
    }
  }

  /** A program whose second block does not exist starts to be loaded, and fails. */
  lemma BrokenProgram(garbage: seq<byte>)
    requires |garbage| == HEADER_SIZE
    ensures var v := OneProgram(2 * FOURKB, seq(DATB_SIZE, k => if k == 1 then 7 else 0));
      Sound(v) && Executable(v, EXAMPLE, garbage) && LoadingOf(v, InodeOf(v, EXAMPLE)) == Broken
  {
    var blocks := seq(DATB_SIZE, k => if k == 1 then 7 else 0);
    var v := OneProgram(2 * FOURKB, blocks);
    OneProgramIsSound(2 * FOURKB, blocks);
    OneProgramStarts(2 * FOURKB, blocks, garbage);
    assert v.inodes[0].blocks[1] == 7;
    assert !Good(v, 0, FOURKB);
    OneBadSpoilsAll(v, 0, 0, 2 * FOURKB, FOURKB);
  }

  /** Reading that program as a file: a read of all of it fails and moves the position in front of the
      start, where even a read of one byte fails, which would have succeeded before. */
  lemma BrokenProgramRead()
    ensures var v := OneProgram(2 * FOURKB, seq(DATB_SIZE, k => if k == 1 then 7 else 0));
      && Sound(v) && Opens(v, EXAMPLE) && OpenedHandle(v, EXAMPLE) == Damaged(EXAMPLE, 0)
      && ReturnOf(v, Damaged(EXAMPLE, 0), 1) == 1
      && ReturnOf(v, Damaged(EXAMPLE, 0), 2 * FOURKB) == -1
      && Advanced(v, Damaged(EXAMPLE, 0), 2 * FOURKB) == Damaged(EXAMPLE, -1)
      && ReturnOf(v, Damaged(EXAMPLE, -1), 1) == -1
  {
    var blocks := seq(DATB_SIZE, k => if k == 1 then 7 else 0);
    var v := OneProgram(2 * FOURKB, blocks);
    OneProgramIsSound(2 * FOURKB, blocks);
    assert v.inodes[0].blocks[1] == 7 && v.inodes[0].blocks[0] == 0;
    assert !Good(v, 0, FOURKB) && Good(v, 0, 0);
    OneBadSpoilsAll(v, 0, 0, 2 * FOURKB, FOURKB);
    assert 1 < BlocksFor(2 * FOURKB) && !FileOk(v, 0);
    assert AllGood(v, 0, 0, 0) && AllGood(v, 0, 0, 1);
  }

  /** A program one byte longer than the rest of its page is loaded, over the screens. */
  lemma LongProgram(garbage: seq<byte>)
    requires |garbage| == HEADER_SIZE
    ensures var v := OneProgram(PAGE_ROOM + 1, seq(DATB_SIZE, k => 0));
      Sound(v) && Executable(v, EXAMPLE, garbage) && LoadingOf(v, InodeOf(v, EXAMPLE)) == Done
      && FileOk(v, InodeOf(v, EXAMPLE)) && |Content(v, InodeOf(v, EXAMPLE))| > PAGE_ROOM
  {
    var blocks := seq(DATB_SIZE, k => 0);
    var v := OneProgram(PAGE_ROOM + 1, blocks);
    OneProgramIsSound(PAGE_ROOM + 1, blocks);
    OneProgramStarts(PAGE_ROOM + 1, blocks, garbage);
    LoadsIff(v, 0);
  }

  /** A program of the greatest length is stored at an address that is not mapped, unless there are so
      many terminals that their pages take all of it. */
  lemma TooLongProgram(garbage: seq<byte>)
    requires |garbage| == HEADER_SIZE
    ensures var v := OneProgram(FOURKB * DATB_SIZE, seq(DATB_SIZE, k => 0));
      Sound(v) && Executable(v, EXAMPLE, garbage)
      && (LoadingOf(v, InodeOf(v, EXAMPLE)) == Faulted <==> NUM_TERM <= 70)
  {
    var blocks := seq(DATB_SIZE, k => 0);
    var v := OneProgram(FOURKB * DATB_SIZE, blocks);
    OneProgramIsSound(FOURKB * DATB_SIZE, blocks);
    OneProgramStarts(FOURKB * DATB_SIZE, blocks, garbage);
    LoadsIff(v, 0);
    assert FileOk(v, 0);
  }
}
