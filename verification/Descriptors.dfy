/**
  The open files of the processes: file_des_array of every PCB, and the calls that use it.
 */
module Descriptors {
  import opened Common
  import opened CStrings
  import opened FileSystem

  const MAX_FILE: nat := 8
  const FILE_START: nat := 2
  const STDOUT_IDX: nat := 1
  const NOT_PRES: int := 0
  const PRESENT: int := 1

  datatype Ops = RtcOps | FileOps | DirectoryOps | StdOps

  datatype FileDes = FileDes(ops: Ops, inode: int, position: int, flags: int)

  // ---------- what an open descriptor means ----------

  /** A damaged file lists a block that does not exist; its position may be any 32-bit number. */
  datatype Handle =
    | Terminal
    | Rtc
    | Directory(next: nat)
    | File(name: seq<byte>, pos: nat)
    | Damaged(name: seq<byte>, position: int)

  type Handles = map<int, Handle>

  /** The name resolves to a regular file. */
  ghost predicate IsRegular(v: Volume, name: seq<byte>)
    requires IsVolume(v)
  {
    Lookup(v, name) < NUMDIR && v.entries[Lookup(v, name)].filetype == TXT_FILE
  }

  ghost function InodeOf(v: Volume, name: seq<byte>): (inode: nat)
    requires Sound(v) && Lookup(v, name) < NUMDIR
    ensures inode < |v.inodes| && Readable(v, inode) && inode == v.entries[Lookup(v, name)].inodeNum
  {
    LookupStaysInDirectory(v, name);
    v.entries[Lookup(v, name)].inodeNum
  }

  /** The name resolves to a regular file whose blocks all exist. */
  ghost predicate IsFile(v: Volume, name: seq<byte>)
    requires Sound(v)
  {
    IsRegular(v, name) && FileOk(v, InodeOf(v, name))
  }

  ghost function FileContent(v: Volume, name: seq<byte>): seq<byte>
    requires Sound(v) && IsFile(v, name)
  {
    Content(v, InodeOf(v, name))
  }

  predicate IsInt32(n: int) {
    -0x8000_0000 <= n < 0x8000_0000
  }

  function WrapInt32(n: int): (r: int)
    requires -0x1_0000_0000 <= n <= 0x1_0000_0000
    ensures IsInt32(r) && (r - n) % 0x1_0000_0000 == 0
  {
    if n < -0x8000_0000 then n + 0x1_0000_0000 else if n >= 0x8000_0000 then n - 0x1_0000_0000 else n
  }

  ghost predicate GoodHandle(v: Volume, h: Handle)
    requires Sound(v)
  {
    && (h.File? ==> IsFile(v, h.name) && h.pos <= |FileContent(v, h.name)|)
    && (h.Damaged? ==> IsRegular(v, h.name) && !IsFile(v, h.name) && IsInt32(h.position))
  }

  ghost predicate Matches(v: Volume, d: FileDes, h: Handle)
    requires Sound(v)
  {
    && GoodHandle(v, h)
    && match h
       case Terminal => d.ops == StdOps
       case Rtc => d.ops == RtcOps
       case Directory(next) => d.ops == DirectoryOps && d.position == next
       case File(name, pos) => d.ops == FileOps && d.position == pos && d.inode == InodeOf(v, name)
       case Damaged(name, pos) => d.ops == FileOps && d.position == pos && d.inode == InodeOf(v, name)
  }

  /** Table t holds exactly the open descriptors m. */
  ghost predicate TableIs(v: Volume, t: seq<FileDes>, m: Handles)
    requires Sound(v)
  {
    && |t| == MAX_FILE
    && 0 in m && 1 in m
    && (forall fd :: fd in m ==> 0 <= fd < MAX_FILE && Matches(v, t[fd], m[fd]))
    && (forall fd :: fd in m ==> (m[fd].Terminal? <==> fd < FILE_START))
    && (forall fd :: 0 <= fd < MAX_FILE ==> t[fd].flags == if fd in m then PRESENT else NOT_PRES)
  }

  const LAUNCHED: Handles := map[0 := Terminal, 1 := Terminal]

  /** The lowest free descriptor from fd on; MAX_FILE if there is none. */
  function LeastFreeFd(m: Handles, fd: nat): (r: nat)
    requires fd <= MAX_FILE
    ensures fd <= r <= MAX_FILE
    ensures r < MAX_FILE ==> r !in m
    ensures forall k :: fd <= k < r ==> k in m
    decreases MAX_FILE - fd
  {
    if fd == MAX_FILE || fd !in m then fd else LeastFreeFd(m, fd + 1)
  }

  // ---------- what the calls do to a handle ----------

  ghost predicate Opens(v: Volume, name: seq<byte>)
    requires Sound(v)
  {
    Lookup(v, name) < NUMDIR && 0 <= v.entries[Lookup(v, name)].filetype <= 2
  }

  ghost function OpenedHandle(v: Volume, name: seq<byte>): (h: Handle)
    requires Sound(v) && Opens(v, name)
    ensures GoodHandle(v, h)
  {
    var kind := v.entries[Lookup(v, name)].filetype;
    if kind == RTC_FILE then Rtc
    else if kind == DIRECTORY_FILE then Directory(0)
    else if IsFile(v, name) then File(name, 0)
    else Damaged(name, 0)
  }

  /** The handle of a disk object, as opposed to a device. */
  predicate OnDisk(h: Handle) {
    h.File? || h.Directory? || h.Damaged?
  }

  /** A read of n bytes of a damaged file fails. */
  ghost predicate DamagedFails(v: Volume, h: Handle, n: nat)
    requires Sound(v) && GoodHandle(v, h) && h.Damaged?
  {
    ReadFails(v, InodeOf(v, h.name), Unsigned(h.position), n)
  }

  /** The bytes a read of n bytes delivers, and how far the handle advances. */
  ghost function Delivered(v: Volume, h: Handle, n: nat): (bytes: seq<byte>)
    requires Sound(v) && GoodHandle(v, h) && OnDisk(h)
    ensures |bytes| <= n
  {
    match h
    case File(name, pos) =>
      var c := FileContent(v, name);
      c[pos..pos + Min(n, |c| - pos)]
    case Directory(next) =>
      if next > v.dirCount then [] else Name(v, next)[..Min(n, |Name(v, next)|)]
    case Damaged(name, pos) =>
      var r := Deliverable(v.inodes[InodeOf(v, name)].length, Unsigned(pos), n);
      if DamagedFails(v, h, n) || r == 0 then [] else Fetched(v, InodeOf(v, name), Unsigned(pos), r)
  }

  /** What the read returns. */
  ghost function ReturnOf(v: Volume, h: Handle, n: nat): (ret: int)
    requires Sound(v) && GoodHandle(v, h) && OnDisk(h)
    ensures -1 <= ret <= n
  {
    if h.Damaged? && DamagedFails(v, h, n) then -1 else |Delivered(v, h, n)|
  }

  /** The position moves by what the read returns -- also when that is -1. */
  ghost function Advanced(v: Volume, h: Handle, n: nat): (h': Handle)
    requires Sound(v) && GoodHandle(v, h) && OnDisk(h) && n < 0x8000_0000
    ensures GoodHandle(v, h')
  {
    match h
    case File(name, pos) => File(name, pos + |Delivered(v, h, n)|)
    case Directory(next) => if next > v.dirCount then h else Directory(next + 1)
    case Damaged(name, pos) => Damaged(name, WrapInt32(pos + ReturnOf(v, h, n)))
  }

  /** A directory read also stores the terminating NUL when it still fits. */
  ghost function Stored(v: Volume, h: Handle, n: nat): (bytes: seq<byte>)
    requires Sound(v) && GoodHandle(v, h) && OnDisk(h)
    ensures |bytes| <= n
  {
    var d := Delivered(v, h, n);
    if h.Directory? && h.next <= v.dirCount && |d| < Min(n, NAMELEN) then d + [NUL] else d
  }

  /** What the drivers of terminal and clock answer to a read: a result, and bytes for the caller. */
  datatype Answer = Answer(ret: int, bytes: seq<byte>)

  // ---------- tables ----------

  lemma LaunchedTable(v: Volume, t: seq<FileDes>)
    requires Sound(v) && |t| == MAX_FILE
    requires t[0] == t[1] == FileDes(StdOps, -1, 0, PRESENT)
    requires forall k :: FILE_START <= k < MAX_FILE ==> t[k].flags == NOT_PRES
    ensures TableIs(v, t, LAUNCHED)
  {
  }

  lemma ClosedTable(v: Volume, t: seq<FileDes>, m: Handles, fd: nat)
    requires Sound(v) && TableIs(v, t, m) && FILE_START <= fd < MAX_FILE
    ensures TableIs(v, t[fd := t[fd].(flags := NOT_PRES)], m - {fd})
  {
  }

  /** Changing one entry changes one handle, whatever the entry held before. */
  lemma SetTable(v: Volume, t: seq<FileDes>, m: Handles, fd: nat, d: FileDes, h: Handle)
    requires Sound(v) && TableIs(v, t, m) && FILE_START <= fd < MAX_FILE
    requires d.flags == PRESENT && Matches(v, d, h) && !h.Terminal?
    ensures TableIs(v, t[fd := d], m[fd := h])
  {
  }

  lemma NameByte(field: seq<byte>, i: nat)
    requires i < |field| && i <= |FieldText(field)|
    ensures field[i] == NUL <==> i == |FieldText(field)|
    ensures i < |FieldText(field)| ==> field[i] == FieldText(field)[i]
  {
    var name := FieldText(field);
    assert i < |name| ==> name[i] in name;
  }

  class FdTables {
    const disk: Disk
    const tables: array<seq<FileDes>>   // one file_des_array a PCB
    ghost var handles: map<nat, Handles>  // of the processes that run

    ghost predicate Valid()
      reads this, tables
    {
      && Sound(disk.vol)
      && tables.Length == MAX_NUM_PROC
      && (forall pid :: 0 <= pid < MAX_NUM_PROC ==> |tables[pid]| == MAX_FILE)
      && (forall pid :: pid in handles ==> pid < MAX_NUM_PROC && TableIs(disk.vol, tables[pid], handles[pid]))
    }

    /** The PCBs are raw memory at first: no process runs. */
    constructor (disk: Disk, tables: array<seq<FileDes>>)
      requires Sound(disk.vol) && tables.Length == MAX_NUM_PROC
      requires forall pid :: 0 <= pid < MAX_NUM_PROC ==> |tables[pid]| == MAX_FILE
      ensures this.disk == disk && this.tables == tables && handles == map[] && Valid()
    {
      this.disk := disk;
      this.tables := tables;
      handles := map[];
    }

    /** The part of execute that sets up the descriptors of a new process. */
    method Launch(pid: nat)
      requires Valid() && pid < MAX_NUM_PROC
      modifies this, tables
      ensures Valid() && handles == old(handles)[pid := LAUNCHED] && handles.Keys == old(handles.Keys) + {pid}
      ensures tables[..] == old(tables[..])[pid := tables[pid]]
    {
      InitTable(pid);
      LaunchedTable(disk.vol, tables[pid]);
      handles := handles[pid := LAUNCHED];
    }

    method InitTable(pid: nat)
      requires pid < tables.Length && |tables[pid]| == MAX_FILE
      modifies tables
      ensures |tables[pid]| == MAX_FILE
      ensures tables[pid][0] == tables[pid][1] == FileDes(StdOps, -1, 0, PRESENT)
      ensures forall k :: FILE_START <= k < MAX_FILE ==> tables[pid][k].flags == NOT_PRES
      ensures tables[..] == old(tables[..])[pid := tables[pid]]
    {
      tables[pid] := tables[pid][0 := FileDes(StdOps, -1, 0, PRESENT)];
      tables[pid] := tables[pid][1 := FileDes(StdOps, -1, 0, PRESENT)];
      var i := FILE_START;
      while i < MAX_FILE
        invariant FILE_START <= i <= MAX_FILE
        invariant |tables[pid]| == MAX_FILE
        invariant tables[pid][0] == tables[pid][1] == FileDes(StdOps, -1, 0, PRESENT)
        invariant forall k :: FILE_START <= k < i ==> tables[pid][k].flags == NOT_PRES
        invariant tables[..] == old(tables[..])[pid := tables[pid]]
      {
        tables[pid] := tables[pid][i := tables[pid][i].(flags := NOT_PRES)];
        i := i + 1;
      }
    }

    /** The loop of halt that closes the files of a process; afterwards its PCB is free. */
    method Retire(pid: nat)
      requires Valid() && pid in handles
      modifies this, tables
      ensures Valid() && handles == old(handles) - {pid}
      ensures tables[..] == old(tables[..])[pid := tables[pid]]
      ensures forall fd :: FILE_START <= fd < MAX_FILE ==> tables[pid][fd].flags == NOT_PRES
    {
      CloseAll(pid);
      handles := handles - {pid};
    }

    method CloseAll(pid: nat)
      requires pid < tables.Length && |tables[pid]| == MAX_FILE
      modifies tables
      ensures |tables[pid]| == MAX_FILE && tables[..] == old(tables[..])[pid := tables[pid]]
      ensures forall fd :: FILE_START <= fd < MAX_FILE ==> tables[pid][fd].flags == NOT_PRES
    {
      var fd := FILE_START;
      while fd < MAX_FILE
        invariant FILE_START <= fd <= MAX_FILE
        invariant |tables[pid]| == MAX_FILE && tables[..] == old(tables[..])[pid := tables[pid]]
        invariant forall k :: FILE_START <= k < fd ==> tables[pid][k].flags == NOT_PRES
      {
        var ret := CloseEntry(pid, fd);
        fd := fd + 1;
      }
    }

    /** close, on the table. */
    method CloseEntry(pid: nat, fd: int) returns (ret: int)
      requires pid < tables.Length && |tables[pid]| == MAX_FILE
      modifies tables
      ensures ret == if FILE_START <= fd < MAX_FILE && old(tables[pid])[fd].flags != NOT_PRES then 0 else -1
      ensures tables[..] == old(tables[..])[pid :=
                if ret == 0 then old(tables[pid])[fd := old(tables[pid])[fd].(flags := NOT_PRES)] else old(tables[pid])]
    {
      if fd < FILE_START || fd >= MAX_FILE {
        return -1;
      }
      if tables[pid][fd].flags == NOT_PRES {
        return -1;
      }
      tables[pid] := tables[pid][fd := tables[pid][fd].(flags := NOT_PRES)];
      ret := 0;
    }

    method Close(pid: nat, fd: int) returns (ret: int)
      requires Valid() && pid in handles
      modifies this, tables
      ensures Valid() && CloseCall(old(handles), pid, fd, ret, handles) && handles.Keys == old(handles.Keys)
      ensures tables[..] == old(tables[..])[pid := tables[pid]]
    {
      ret := CloseEntry(pid, fd);
      if ret == 0 {
        ClosedTable(disk.vol, old(tables[pid]), handles[pid], fd);
        handles := handles[pid := handles[pid] - {fd}];
      }
    }

    /** Resolves a name and opens it under the lowest free descriptor. */
    method Open(pid: nat, filename: array<byte>, ghost name: seq<byte>) returns (ret: int)
      requires Valid() && disk.Valid() && pid in handles && IsCString(filename[..], 0, name)
      modifies this, tables
      ensures Valid() && OpenCall(disk.vol, old(handles), pid, name, ret, handles) && handles.Keys == old(handles.Keys)
      ensures tables[..] == old(tables[..])[pid := tables[pid]]
      ensures ret == -1 ==> tables[..] == old(tables[..])
    {
      var found, entry := disk.ReadDentryByName(filename, 0, name);
      if found != 0 {
        return -1;
      }
      ghost var inode := InodeOf(disk.vol, name);
      var fd := FILE_START;
      while fd < MAX_FILE && tables[pid][fd].flags != NOT_PRES
        invariant FILE_START <= fd <= MAX_FILE
        invariant LeastFreeFd(handles[pid], FILE_START) == LeastFreeFd(handles[pid], fd)
      {
        fd := fd + 1;
      }
      if fd == MAX_FILE {
        return -1;
      }
      var d := tables[pid][fd];
      if entry.filetype == RTC_FILE {
        d := d.(ops := RtcOps);
      } else if entry.filetype == DIRECTORY_FILE {
        d := d.(ops := DirectoryOps);
      } else if entry.filetype == TXT_FILE {
        d := d.(ops := FileOps, inode := entry.inodeNum);
      } else {
        return -1;
      }
      d := d.(position := 0, flags := PRESENT);
      SetEntry(pid, fd, d, OpenedHandle(disk.vol, name));
      ret := fd;
    }

    /** Changes one entry of one table. */
    method SetEntry(pid: nat, fd: nat, d: FileDes, ghost h: Handle)
      requires Valid() && pid in handles && FILE_START <= fd < MAX_FILE
      requires d.flags == PRESENT && Matches(disk.vol, d, h) && !h.Terminal?
      modifies this`handles, tables
      ensures Valid() && handles == old(handles)[pid := old(handles)[pid][fd := h]]
      ensures tables[..] == old(tables[..])[pid := tables[pid]]
    {
      SetTable(disk.vol, tables[pid], handles[pid], fd, d, h);
      tables[pid] := tables[pid][fd := d];
      handles := handles[pid := handles[pid][fd := h]];
    }

    method FileRead(pid: nat, fd: int, buf: array<byte>, nbytes: int) returns (ret: int)
      requires Valid() && disk.Valid() && pid in handles
      requires fd in handles[pid] ==> handles[pid][fd].File? || handles[pid][fd].Damaged?
      requires IsInt32(nbytes) && nbytes <= buf.Length
      modifies this, tables, buf
      ensures Valid()
      ensures if nbytes >= 0 && FILE_START <= fd < MAX_FILE && fd in old(handles)[pid]
              then ReadsAs(disk.vol, old(handles)[pid][fd], nbytes, old(buf[..]), ret, buf[..])
                   && handles == old(handles)[pid :=
                         old(handles)[pid][fd := Advanced(disk.vol, old(handles)[pid][fd], nbytes)]]
              else ret == -1 && handles == old(handles) && buf[..] == old(buf[..])
      ensures tables[..] == old(tables[..])[pid := tables[pid]]
    {
      if nbytes < 0 || fd < FILE_START || fd >= MAX_FILE {
        return -1;
      }
      if tables[pid][fd].flags != PRESENT {
        return -1;
      }
      ghost var h := handles[pid][fd];
      var d := tables[pid][fd];
      ret := ReadFileAt(d, h, buf, nbytes);
      SetEntry(pid, fd, d.(position := WrapInt32(d.position + ret)), Advanced(disk.vol, h, nbytes));
    }

    /** read_data where a file descriptor stands. */
    method ReadFileAt(d: FileDes, ghost h: Handle, buf: array<byte>, nbytes: nat) returns (ret: int)
      requires disk.Valid() && Sound(disk.vol)
      requires (h.File? || h.Damaged?) && Matches(disk.vol, d, h)
      requires nbytes < 0x8000_0000 && nbytes <= buf.Length
      modifies buf
      ensures ReadsAs(disk.vol, h, nbytes, old(buf[..]), ret, buf[..])
      ensures IsInt32(d.position) && IsInt32(ret)
      ensures h.File? ==> d.position + ret < 0x8000_0000
    {
      ghost var v, offset := disk.vol, Unsigned(d.position);
      disk.ValidIsMapped();
      HandleIsRead(disk.image, v, d, h, nbytes);
      var outside;
      ret, outside := disk.ReadData(d.inode, Unsigned(d.position), buf, 0, nbytes);
      ReadingReadsAs(v, h, nbytes, ReadingOf(disk.image, d.inode, offset, nbytes), old(buf[..]), buf[..]);
    }

    method DirectoryRead(pid: nat, fd: int, buf: array<byte>, nbytes: int) returns (ret: int)
      requires Valid() && disk.Valid() && pid in handles
      requires FILE_START <= fd < MAX_FILE && fd in handles[pid] && handles[pid][fd].Directory?
      requires IsInt32(nbytes) && nbytes <= buf.Length
      modifies this, tables, buf
      ensures Valid()
      ensures if nbytes > 0
              then ReadsAs(disk.vol, old(handles)[pid][fd], nbytes, old(buf[..]), ret, buf[..])
                   && handles == old(handles)[pid :=
                         old(handles)[pid][fd := Advanced(disk.vol, old(handles)[pid][fd], nbytes)]]
              else ret == -1 && handles == old(handles) && buf[..] == old(buf[..])
      ensures tables[..] == old(tables[..])[pid := tables[pid]]
    {
      if fd < FILE_START || fd > MAX_FILE || nbytes <= 0 {
        return -1;
      }
      var d := tables[pid][fd];
      ghost var h := handles[pid][fd];
      var more;
      ret, more := ReadEntryAt(d.position, buf, nbytes);
      if more {
        d := d.(position := d.position + 1);
      }
      SetEntry(pid, fd, d, Advanced(disk.vol, h, nbytes));
    }

    /** The name at a directory position; `more` says whether the position advances. */
    method ReadEntryAt(position: int, buf: array<byte>, nbytes: nat) returns (ret: int, more: bool)
      requires disk.Valid() && Sound(disk.vol)
      requires 0 <= position && 0 < nbytes < 0x8000_0000 && nbytes <= buf.Length
      modifies buf
      ensures ReadsAs(disk.vol, Directory(position), nbytes, old(buf[..]), ret, buf[..])
      ensures more <==> position <= disk.vol.dirCount
    {
      var dirCount := disk.DirCount();
      if position < 0 {
        return -1, false;
      } else if position > dirCount {
        assert Splice(buf[..], 0, []) == buf[..];
        return 0, false;
      }
      ret := ReadNameAt(position, buf, Min(NAMELEN, nbytes));
      more := true;
    }

    method ReadNameAt(position: nat, buf: array<byte>, limit: nat) returns (ret: int)
      requires disk.Valid() && Sound(disk.vol) && position <= disk.vol.dirCount
      requires limit <= NAMELEN && limit <= buf.Length
      modifies buf
      ensures var name := Name(disk.vol, position);
        && ret == Min(limit, |name|)
        && buf[..] == Splice(old(buf[..]), 0, name[..ret] + if ret < limit then [NUL] else [])
    {
      var entry := new byte[64];
      disk.EntryBytesAre(position);
      var r, _, _, _ := disk.ReadDentryByIndex(position, entry);
      if r == -1 {
        return -1;
      }
      ret := CopyName(entry, buf, limit);
    }

    /** Copies a name of at most `limit` characters, with its NUL when that fits. */
    static method CopyName(entry: array<byte>, buf: array<byte>, limit: nat) returns (index: nat)
      requires entry != buf && entry.Length == 64 && limit <= NAMELEN && limit <= buf.Length
      modifies buf
      ensures var name := FieldText(entry[..NAMELEN]);
        && index == Min(limit, |name|)
        && buf[..] == Splice(old(buf[..]), 0, name[..index] + if index < limit then [NUL] else [])
    {
      ghost var field := entry[..NAMELEN];
      ghost var name := FieldText(field);
      index := 0;
      while index < limit
        invariant 0 <= index <= limit && index <= |name| && entry[..NAMELEN] == field
        invariant forall k :: 0 <= k < index ==> buf[k] == name[k]
        invariant forall k :: index <= k < buf.Length ==> buf[k] == old(buf[k])
      {
        NameByte(field, index);
        assert entry[index] == field[index];
        buf[index] := entry[index];
        if buf[index] == NUL {
          SplicedWhere(old(buf[..]), 0, name[..index] + [NUL], buf[..]);
          return;
        }
        index := index + 1;
      }
      SplicedWhere(old(buf[..]), 0, name[..index], buf[..]);
      assert name[..index] + [] == name[..index];
    }

    /** The read system call.  Terminal and clock answer through their drivers. */
    method Read(pid: nat, fd: int, buf: array<byte>, nbytes: int, driver: Answer) returns (ret: int)
      requires Valid() && disk.Valid() && pid in handles
      requires IsInt32(nbytes) && nbytes <= buf.Length && |driver.bytes| <= buf.Length
      modifies this, tables, buf
      ensures Valid() && handles.Keys == old(handles.Keys)
      ensures ReadCall(disk.vol, old(handles), pid, fd, nbytes, driver, old(buf[..]), ret, buf[..], handles)
      ensures tables[..] == old(tables[..])[pid := tables[pid]]
    {
      if fd < 0 || fd >= MAX_FILE || fd == STDOUT_IDX {
        return -1;
      }
      if tables[pid][fd].flags == NOT_PRES {
        return -1;
      }
      ret := Dispatch(pid, fd, buf, nbytes, driver);
    }

    /** The call through the operations of a descriptor. */
    method Dispatch(pid: nat, fd: nat, buf: array<byte>, nbytes: int, driver: Answer) returns (ret: int)
      requires Valid() && disk.Valid() && pid in handles && fd in handles[pid] && fd != STDOUT_IDX
      requires IsInt32(nbytes) && nbytes <= buf.Length && |driver.bytes| <= buf.Length
      modifies this, tables, buf
      ensures Valid()
      ensures ReadCall(disk.vol, old(handles), pid, fd, nbytes, driver, old(buf[..]), ret, buf[..], handles)
      ensures tables[..] == old(tables[..])[pid := tables[pid]]
    {
      if tables[pid][fd].ops == StdOps || tables[pid][fd].ops == RtcOps {
        ret := AskDriver(driver, buf);
      } else {
        ret := ReadFromDisk(pid, fd, buf, nbytes);
      }
    }

    method ReadFromDisk(pid: nat, fd: nat, buf: array<byte>, nbytes: int) returns (ret: int)
      requires Valid() && disk.Valid() && pid in handles && fd in handles[pid] && OnDisk(handles[pid][fd])
      requires IsInt32(nbytes) && nbytes <= buf.Length
      modifies this, tables, buf
      ensures Valid()
      ensures if Effective(old(handles)[pid][fd], nbytes)
              then ReadsAs(disk.vol, old(handles)[pid][fd], nbytes, old(buf[..]), ret, buf[..])
                   && handles == old(handles)[pid :=
                         old(handles)[pid][fd := Advanced(disk.vol, old(handles)[pid][fd], nbytes)]]
              else ret == -1 && handles == old(handles) && buf[..] == old(buf[..])
      ensures tables[..] == old(tables[..])[pid := tables[pid]]
    {
      if tables[pid][fd].ops == FileOps {
        ret := FileRead(pid, fd, buf, nbytes);
      } else {
        ret := DirectoryRead(pid, fd, buf, nbytes);
      }
    }

    static method AskDriver(driver: Answer, buf: array<byte>) returns (ret: int)
      requires |driver.bytes| <= buf.Length
      modifies buf
      ensures ret == driver.ret && buf[..] == Splice(old(buf[..]), 0, driver.bytes)
    {
      var i := 0;
      while i < |driver.bytes|
        invariant 0 <= i <= |driver.bytes|
        invariant forall k :: 0 <= k < i ==> buf[k] == driver.bytes[k]
        invariant forall k :: i <= k < buf.Length ==> buf[k] == old(buf[k])
      {
        buf[i] := driver.bytes[i];
        i := i + 1;
      }
      SplicedWhere(old(buf[..]), 0, driver.bytes, buf[..]);
      ret := driver.ret;
    }
  }

  /** An open by process pid takes the lowest free descriptor, or fails and changes nothing. */
  ghost predicate OpenCall(v: Volume, hs: map<nat, Handles>, pid: nat, name: seq<byte>, ret: int,
                           hs': map<nat, Handles>)
    requires Sound(v) && pid in hs
  {
    ret == OpenReturns(v, hs[pid], name) && hs' == FilesAfterOpen(v, hs, pid, name)
  }

  ghost function OpenReturns(v: Volume, m: Handles, name: seq<byte>): int
    requires Sound(v)
  {
    if Opens(v, name) && LeastFreeFd(m, FILE_START) < MAX_FILE then LeastFreeFd(m, FILE_START) else -1
  }

  ghost function FilesAfterOpen(v: Volume, hs: map<nat, Handles>, pid: nat, name: seq<byte>): map<nat, Handles>
    requires Sound(v) && pid in hs
  {
    var ret := OpenReturns(v, hs[pid], name);
    if ret == -1 then hs else hs[pid := hs[pid][ret := OpenedHandle(v, name)]]
  }

  /** A close by process pid frees that descriptor, or fails and changes nothing. */
  ghost predicate CloseCall(hs: map<nat, Handles>, pid: nat, fd: int, ret: int, hs': map<nat, Handles>)
    requires pid in hs
  {
    ret == CloseReturns(hs[pid], fd) && hs' == FilesAfterClose(hs, pid, fd)
  }

  function CloseReturns(m: Handles, fd: int): int {
    if FILE_START <= fd < MAX_FILE && fd in m then 0 else -1
  }

  function FilesAfterClose(hs: map<nat, Handles>, pid: nat, fd: int): map<nat, Handles>
    requires pid in hs
  {
    if CloseReturns(hs[pid], fd) == 0 then hs[pid := hs[pid] - {fd}] else hs
  }

  /** A read by process pid fails and changes nothing, or hands out what the driver of a device
      answers, or delivers what the handle stands before and advances only that handle. */
  ghost predicate ReadCall(v: Volume, hs: map<nat, Handles>, pid: nat, fd: int, nbytes: int, driver: Answer,
                           before: seq<byte>, ret: int, after: seq<byte>, hs': map<nat, Handles>)
    requires Sound(v) && pid in hs && nbytes <= |before| && IsInt32(nbytes) && |driver.bytes| <= |before|
    requires forall k :: k in hs[pid] ==> GoodHandle(v, hs[pid][k])
  {
    && hs' == FilesAfterRead(v, hs, pid, fd, nbytes)
    && (if fd == STDOUT_IDX || fd !in hs[pid] then ret == -1 && after == before
        else if !OnDisk(hs[pid][fd]) then ret == driver.ret && after == Splice(before, 0, driver.bytes)
        else if !Effective(hs[pid][fd], nbytes) then ret == -1 && after == before
        else ReadsAs(v, hs[pid][fd], nbytes, before, ret, after))
  }

  /** A read with this size gets as far as the disk. */
  predicate Effective(h: Handle, nbytes: int) {
    OnDisk(h) && (nbytes > 0 || (nbytes == 0 && !h.Directory?))
  }

  ghost function FilesAfterRead(v: Volume, hs: map<nat, Handles>, pid: nat, fd: int, nbytes: int): map<nat, Handles>
    requires Sound(v) && pid in hs && IsInt32(nbytes)
    requires forall k :: k in hs[pid] ==> GoodHandle(v, hs[pid][k])
  {
    if fd != STDOUT_IDX && fd in hs[pid] && Effective(hs[pid][fd], nbytes)
    then hs[pid := hs[pid][fd := Advanced(v, hs[pid][fd], nbytes)]]
    else hs
  }

  /** What read_data does at the place a good file handle stands. */
  lemma FileReadIs(v: Volume, d: FileDes, h: Handle, n: nat)
    requires Sound(v) && h.File? && Matches(v, d, h)
    ensures 0 <= d.inode < |v.inodes| && FileOk(v, d.inode) && Readable(v, d.inode)
    ensures 0 <= d.position <= v.inodes[d.inode].length <= FOURKB * DATB_SIZE
    ensures !ReadFails(v, d.inode, d.position, n)
    ensures var r := Deliverable(v.inodes[d.inode].length, d.position, n);
      Delivered(v, h, n) == Content(v, d.inode)[d.position..d.position + r]
  {
    SoundReadFails(v, d.inode, d.position, n);
  }

  /** The reading of the image at a file handle is what the handle says. */
  lemma HandleIsRead(img: seq<byte>, v: Volume, d: FileDes, h: Handle, n: nat)
    requires Decodes(img, v) && Sound(v) && (h.File? || h.Damaged?) && Matches(v, d, h) && n < 0x8000_0000
    ensures |img| >= DataAddr(I32(img, 4)) >= FOURKB
    ensures 0 <= d.inode < |v.inodes| && d.inode < 0x1_0000_0000 && IsInt32(d.position)
    ensures h.File? ==> 0 <= d.position + |Delivered(v, h, n)| <= FOURKB * DATB_SIZE
    ensures var r := ReadingOf(img, d.inode, Unsigned(d.position), n);
      && |r.bytes| <= n && !r.Leaves? && (r.Fails? <==> ReturnOf(v, h, n) == -1)
      && (r.Reads? ==> r.bytes == Delivered(v, h, n))
  {
    assert |img| == DataAddr(|v.inodes|) + |v.data|;
    if h.File? {
      FileReadIs(v, d, h, n);
      SoundReading(img, v, d.inode, d.position, n);
    } else {
      ReadableReading(img, v, d.inode, Unsigned(d.position), n);
      DamagedRead(v, h, n, ReadingOf(img, d.inode, Unsigned(d.position), n));
    }
  }

  lemma DamagedRead(v: Volume, h: Handle, n: nat, r: Reading)
    requires Sound(v) && h.Damaged? && GoodHandle(v, h)
    requires IsReading(v, InodeOf(v, h.name), Unsigned(h.position), n, r)
    ensures |r.bytes| <= n && !r.Leaves? && (r.Fails? <==> ReturnOf(v, h, n) == -1)
    ensures r.Reads? ==> r.bytes == Delivered(v, h, n)
  {
  }

  /** A failing read leaves a descriptor that can still deliver something if and only if it did not stand
      at the start of the file, and the byte in front of where it stood is one of an existing block. */
  lemma DeliversAfterFailingIff(v: Volume, h: Handle, n: nat)
    requires Sound(v) && h.Damaged? && GoodHandle(v, h) && n < 0x8000_0000 && ReturnOf(v, h, n) == -1
    ensures var length := v.inodes[InodeOf(v, h.name)].length;
      (exists k: nat {:trigger Delivered(v, Advanced(v, h, n), k)} :: Delivered(v, Advanced(v, h, n), k) != [])
      <==> length <= FOURKB * DATB_SIZE && 0 < h.position <= length && Good(v, InodeOf(v, h.name), h.position - 1)
  {
    var inode := InodeOf(v, h.name);
    var length := v.inodes[inode].length;
    var h' := Advanced(v, h, n);
    var pos := Unsigned(h'.position);
    forall k: nat | Delivered(v, h', k) != []
      ensures length <= FOURKB * DATB_SIZE && 0 < h.position <= length && Good(v, inode, h.position - 1)
    {
      FetchedAt(v, inode, pos, Deliverable(length, pos, k), 0);
    }
    if length <= FOURKB * DATB_SIZE && 0 < h.position <= length && Good(v, inode, h.position - 1) {
      assert AllGood(v, inode, pos, 0) && AllGood(v, inode, pos, 1);
      assert Delivered(v, h', 1) != [];
    }
  }

  lemma ReadingReadsAs(v: Volume, h: Handle, n: nat, r: Reading, before: seq<byte>, after: seq<byte>)
    requires Sound(v) && GoodHandle(v, h) && (h.File? || h.Damaged?) && n <= |before| && |r.bytes| <= n
    requires !r.Leaves? && (r.Fails? <==> ReturnOf(v, h, n) == -1) && (r.Reads? ==> r.bytes == Delivered(v, h, n))
    requires after == Splice(before, 0, r.bytes)
    ensures ReadsAs(v, h, n, before, if r.Reads? then |r.bytes| else -1, after)
  {
    SpliceIff(before, 0, r.bytes, after);
  }

  /** A failing read of a damaged file may have stored some bytes already. */
  ghost predicate ReadsAs(v: Volume, h: Handle, n: nat, before: seq<byte>, ret: int, after: seq<byte>)
    requires Sound(v) && GoodHandle(v, h) && OnDisk(h) && n <= |before|
  {
    && ret == ReturnOf(v, h, n)
    && (ret >= 0 ==> after == Splice(before, 0, Stored(v, h, n)))
    && (ret < 0 ==> |after| == |before| && forall k :: n <= k < |before| ==> after[k] == before[k])
  }
}
