/**
  Runs of reads: however reads of several processes and descriptors are interleaved, every
  descriptor delivers its own file from front to back, or its directory entry by entry.
 */
module Streams {
  import opened Common
  import opened FileSystem
  import opened Descriptors

  datatype Request = Request(pid: nat, fd: int, nbytes: nat)

  ghost predicate GoodHandles(v: Volume, hs: map<nat, Handles>)
    requires Sound(v)
  {
    forall pid, fd :: pid in hs && fd in hs[pid] ==> GoodHandle(v, hs[pid][fd])
  }

  ghost predicate Reads(hs: map<nat, Handles>, r: Request) {
    r.pid in hs && r.fd in hs[r.pid] && 0 < r.nbytes < 0x8000_0000 && OnDisk(hs[r.pid][r.fd])
  }

  /** What a request delivers; requests that fail or go to a device deliver no file data. */
  ghost function Handed(v: Volume, hs: map<nat, Handles>, r: Request): seq<byte>
    requires Sound(v) && GoodHandles(v, hs)
  {
    if Reads(hs, r) then Delivered(v, hs[r.pid][r.fd], r.nbytes) else []
  }

  ghost function Serve(v: Volume, hs: map<nat, Handles>, r: Request): (hs': map<nat, Handles>)
    requires Sound(v) && GoodHandles(v, hs)
    ensures GoodHandles(v, hs')
  {
    if Reads(hs, r) then hs[r.pid := hs[r.pid][r.fd := Advanced(v, hs[r.pid][r.fd], r.nbytes)]] else hs
  }

  /** A read system call is a request. */
  lemma ReadCallServes(v: Volume, hs: map<nat, Handles>, r: Request, driver: Answer,
                       before: seq<byte>, ret: int, after: seq<byte>, hs': map<nat, Handles>)
    requires Sound(v) && GoodHandles(v, hs) && r.pid in hs
    requires 0 < r.nbytes <= |before| && r.nbytes < 0x8000_0000 && |driver.bytes| <= |before|
    requires STDOUT_IDX in hs[r.pid] ==> hs[r.pid][STDOUT_IDX].Terminal?
    requires ReadCall(v, hs, r.pid, r.fd, r.nbytes, driver, before, ret, after, hs')
    ensures hs' == Serve(v, hs, r)
    ensures Reads(hs, r) && ret >= 0 ==> ret == |Handed(v, hs, r)| && after[..ret] == Handed(v, hs, r)
    ensures Reads(hs, r) && ret < 0 ==> ret == -1 && hs[r.pid][r.fd].Damaged? && Handed(v, hs, r) == []
  {
  }

  ghost function After(v: Volume, hs: map<nat, Handles>, rs: seq<Request>): (hs': map<nat, Handles>)
    requires Sound(v) && GoodHandles(v, hs)
    ensures GoodHandles(v, hs')
    decreases |rs|
  {
    if rs == [] then hs else After(v, Serve(v, hs, rs[0]), rs[1..])
  }

  /** The bytes descriptor fd of process pid receives in a run, one after the other. */
  ghost function Received(v: Volume, hs: map<nat, Handles>, rs: seq<Request>, pid: nat, fd: int): seq<byte>
    requires Sound(v) && GoodHandles(v, hs)
    decreases |rs|
  {
    if rs == [] then []
    else
      (if rs[0].pid == pid && rs[0].fd == fd then Handed(v, hs, rs[0]) else [])
      + Received(v, Serve(v, hs, rs[0]), rs[1..], pid, fd)
  }

  /** Descriptor fd of process pid stands at a position of a file. */
  ghost predicate AtFile(v: Volume, hs: map<nat, Handles>, pid: nat, fd: int, name: seq<byte>, pos: nat)
    requires Sound(v)
  {
    && pid in hs && fd in hs[pid] && hs[pid][fd] == File(name, pos)
    && IsFile(v, name) && pos <= |FileContent(v, name)|
  }

  predicate Own(r: Request, pid: nat, fd: int) {
    r.pid == pid && r.fd == fd && 0 < r.nbytes < 0x8000_0000
  }

  /** Where a descriptor stands in a file of a given size after a request. */
  function NextPos(size: nat, pos: nat, r: Request, pid: nat, fd: int): (next: nat)
    requires pos <= size
    ensures pos <= next <= size
    ensures Own(r, pid, fd) ==> next >= Min(size, pos + 1)
  {
    if Own(r, pid, fd) then pos + Min(r.nbytes, size - pos) else pos
  }

  /** One request moves a file descriptor over the bytes it answers, and no other descriptor. */
  lemma ServeMoves(v: Volume, hs: map<nat, Handles>, r: Request, pid: nat, fd: int, name: seq<byte>, pos: nat)
    requires Sound(v) && GoodHandles(v, hs) && AtFile(v, hs, pid, fd, name, pos)
    ensures var c, next := FileContent(v, name), NextPos(|FileContent(v, name)|, pos, r, pid, fd);
      && AtFile(v, Serve(v, hs, r), pid, fd, name, next)
      && (r.pid == pid && r.fd == fd ==> Handed(v, hs, r) == c[pos..next])
      && (!(r.pid == pid && r.fd == fd) ==> next == pos)
  {
    if r.pid == pid && r.fd == fd {
      assert Reads(hs, r) <==> Own(r, pid, fd);
    }
  }

  function PosAfter(size: nat, pos: nat, rs: seq<Request>, pid: nat, fd: int): (last: nat)
    requires pos <= size
    ensures pos <= last <= size
    decreases |rs|
  {
    if rs == [] then pos else PosAfter(size, NextPos(size, pos, rs[0], pid, fd), rs[1..], pid, fd)
  }

  lemma Joined(c: seq<byte>, a: nat, b: nat, d: nat)
    requires a <= b <= d <= |c|
    ensures c[a..b] + c[b..d] == c[a..d]
  {
  }

  lemma {:induction false} RunMoves(v: Volume, hs: map<nat, Handles>, rs: seq<Request>, pid: nat, fd: int,
                                    name: seq<byte>, pos: nat)
    requires Sound(v) && GoodHandles(v, hs) && AtFile(v, hs, pid, fd, name, pos)
    ensures var c, last := FileContent(v, name), PosAfter(|FileContent(v, name)|, pos, rs, pid, fd);
      && AtFile(v, After(v, hs, rs), pid, fd, name, last)
      && Received(v, hs, rs, pid, fd) == c[pos..last]
    decreases |rs|
  {
    if rs != [] {
      var c := FileContent(v, name);
      var next := NextPos(|c|, pos, rs[0], pid, fd);
      ServeMoves(v, hs, rs[0], pid, fd, name, pos);
      RunMoves(v, Serve(v, hs, rs[0]), rs[1..], pid, fd, name, next);
      Joined(c, pos, next, PosAfter(|c|, pos, rs, pid, fd));
    }
  }

  /** The bytes a file descriptor receives are the part of its file from where it stood to where it
      stands afterwards, whatever else is read in between -- also from the same file. */
  lemma ReceivedIsContent(v: Volume, hs: map<nat, Handles>, rs: seq<Request>, pid: nat, fd: int)
    requires Sound(v) && GoodHandles(v, hs)
    requires pid in hs && fd in hs[pid] && hs[pid][fd].File?
    ensures var hs' := After(v, hs, rs);
      && pid in hs' && fd in hs'[pid] && hs'[pid][fd].File? && hs'[pid][fd].name == hs[pid][fd].name
      && IsFile(v, hs[pid][fd].name)
      && (var c, from, to := FileContent(v, hs[pid][fd].name), hs[pid][fd].pos, hs'[pid][fd].pos;
          from <= to <= |c| && Received(v, hs, rs, pid, fd) == c[from..to])
  {
    assert GoodHandle(v, hs[pid][fd]);
    RunMoves(v, hs, rs, pid, fd, hs[pid][fd].name, hs[pid][fd].pos);
  }

  /** If a read with a positive size comes back empty, the whole file has been received, and only
      then. */
  lemma EmptyReadMeansWhole(v: Volume, hs: map<nat, Handles>, rs: seq<Request>, pid: nat, fd: int, last: Request)
    requires Sound(v) && GoodHandles(v, hs)
    requires pid in hs && fd in hs[pid] && hs[pid][fd].File? && hs[pid][fd].pos == 0
    requires Own(last, pid, fd)
    ensures IsFile(v, hs[pid][fd].name)
    ensures Handed(v, After(v, hs, rs), last) == [] <==>
              Received(v, hs, rs, pid, fd) == FileContent(v, hs[pid][fd].name)
  {
    assert GoodHandle(v, hs[pid][fd]);
    var name := hs[pid][fd].name;
    var c := FileContent(v, name);
    var end := PosAfter(|c|, 0, rs, pid, fd);
    RunMoves(v, hs, rs, pid, fd, name, 0);
    ServeMoves(v, After(v, hs, rs), last, pid, fd, name, end);
    assert |c[0..end]| == end;
  }

  /** How many requests of a run are effective reads of one descriptor. */
  function OwnReads(rs: seq<Request>, pid: nat, fd: int): nat {
    if rs == [] then 0 else (if Own(rs[0], pid, fd) then 1 else 0) + OwnReads(rs[1..], pid, fd)
  }

  lemma {:induction false} OwnReadsMove(size: nat, pos: nat, rs: seq<Request>, pid: nat, fd: int)
    requires pos <= size
    ensures PosAfter(size, pos, rs, pid, fd) >= Min(size, pos + OwnReads(rs, pid, fd))
    decreases |rs|
  {
    if rs != [] {
      OwnReadsMove(size, NextPos(size, pos, rs[0], pid, fd), rs[1..], pid, fd);
    }
  }

  /** Reading until an empty answer ends, however small the reads are and whatever is read in between:
      after as many effective reads as bytes were left, the whole rest of the file has been received. */
  lemma ReadingEnds(v: Volume, hs: map<nat, Handles>, rs: seq<Request>, pid: nat, fd: int)
    requires Sound(v) && GoodHandles(v, hs)
    requires pid in hs && fd in hs[pid] && hs[pid][fd].File?
    ensures IsFile(v, hs[pid][fd].name) && hs[pid][fd].pos <= |FileContent(v, hs[pid][fd].name)|
    ensures hs[pid][fd].pos + OwnReads(rs, pid, fd) >= |FileContent(v, hs[pid][fd].name)| ==>
              Received(v, hs, rs, pid, fd) == FileContent(v, hs[pid][fd].name)[hs[pid][fd].pos..]
  {
    assert GoodHandle(v, hs[pid][fd]);
    var name, pos := hs[pid][fd].name, hs[pid][fd].pos;
    RunMoves(v, hs, rs, pid, fd, name, pos);
    var c := FileContent(v, name);
    OwnReadsMove(|c|, pos, rs, pid, fd);
    if pos + OwnReads(rs, pid, fd) >= |c| {
      assert PosAfter(|c|, pos, rs, pid, fd) == |c|;
      assert c[pos..|c|] == c[pos..];
    }
  }

  // ---------- directories ----------

  /** The names a directory descriptor at position `next` delivers, one list entry a read. */
  ghost function Listing(v: Volume, next: nat, sizes: seq<nat>): (names: seq<seq<byte>>)
    requires Sound(v) && forall i :: 0 <= i < |sizes| ==> sizes[i] < 0x8000_0000
    ensures |names| == |sizes|
    decreases |sizes|
  {
    if sizes == [] then []
    else
      [Delivered(v, Directory(next), sizes[0])]
      + Listing(v, Advanced(v, Directory(next), sizes[0]).next, sizes[1..])
  }

  /** What a directory read finds at a position: a name, or nothing. */
  ghost function NameAt(v: Volume, next: nat): seq<byte>
    requires Sound(v)
  {
    if next < v.dirCount then Name(v, next) else []
  }

  function Behind(v: Volume, next: nat): nat {
    if next > v.dirCount then next else next + 1
  }

  lemma DirectoryReadOnce(v: Volume, next: nat, n: nat)
    requires Sound(v) && NAMELEN <= n < 0x8000_0000
    ensures Delivered(v, Directory(next), n) == NameAt(v, next)
    ensures Advanced(v, Directory(next), n) == Directory(Behind(v, next))
  {
  }

  lemma ListingSplits(v: Volume, next: nat, sizes: seq<nat>)
    requires Sound(v) && sizes != [] && forall i :: 0 <= i < |sizes| ==> NAMELEN <= sizes[i] < 0x8000_0000
    ensures Listing(v, next, sizes) == [NameAt(v, next)] + Listing(v, Behind(v, next), sizes[1..])
  {
    DirectoryReadOnce(v, next, sizes[0]);
  }

  lemma NameBehind(v: Volume, next: nat, k: nat)
    requires Sound(v) && k > 0
    ensures NameAt(v, Behind(v, next) + (k - 1)) == NameAt(v, next + k)
  {
  }

  /** Reads of at least 32 bytes deliver every name once, complete and in order, and then nothing. */
  lemma {:induction false} ListingIsDirectory(v: Volume, next: nat, sizes: seq<nat>, k: nat)
    requires Sound(v) && k < |sizes|
    requires forall i :: 0 <= i < |sizes| ==> NAMELEN <= sizes[i] < 0x8000_0000
    ensures Listing(v, next, sizes)[k] == NameAt(v, next + k)
    decreases |sizes|
  {
    ListingSplits(v, next, sizes);
    if k > 0 {
      ListingIsDirectory(v, Behind(v, next), sizes[1..], k - 1);
      NameBehind(v, next, k);
    }
  }
}
