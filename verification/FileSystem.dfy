/**
  The read-only file system: a flat image holding a boot block with 63 directory entries, then
  one 4 KB inode a file, then the data blocks.  Addresses are relative to the start of the image.
 */
module FileSystem {
  import opened Common
  import opened CStrings

  const FOURKB: nat := 4096
  const NUMDIR: nat := 63
  const NAMELEN: nat := 32
  const DATB_SIZE: nat := 1023

  const RTC_FILE: int := 0
  const DIRECTORY_FILE: int := 1
  const TXT_FILE: int := 2

  // ---------- volumes ----------

  datatype Inode = Inode(length: int, blocks: seq<int>)

  datatype Dentry = Dentry(filename: seq<byte>, filetype: int, inodeNum: int)

  /** What an image describes. */
  datatype Volume = Volume(dirCount: int, entries: seq<Dentry>, inodes: seq<Inode>, data: seq<byte>)

  predicate IsVolume(v: Volume) {
    && |v.entries| == NUMDIR
    && (forall i :: 0 <= i < NUMDIR ==> |v.entries[i].filename| == NAMELEN)
    && (forall i :: 0 <= i < |v.inodes| ==> |v.inodes[i].blocks| == DATB_SIZE)
    && |v.data| % FOURKB == 0
  }

  function DataCount(v: Volume): nat {
    |v.data| / FOURKB
  }

  function BlocksFor(length: nat): nat {
    (length + FOURKB - 1) / FOURKB
  }

  /** Every unusable block number of the file is one that read_data notices, and its length is not
      among those for which it looks behind the block list. */
  ghost predicate Readable(v: Volume, inode: nat)
    requires IsVolume(v) && inode < |v.inodes|
  {
    var n := v.inodes[inode];
    && 0 <= n.length
    && (n.length <= FOURKB * DATB_SIZE ==>
          forall k :: 0 <= k < BlocksFor(n.length) ==> 0 <= n.blocks[k] != DataCount(v))
    && !(FOURKB * DATB_SIZE < n.length < FOURKB * (DATB_SIZE + 1))
  }

  /** The file fits its inode and lists existing blocks only. */
  ghost predicate FileOk(v: Volume, inode: nat)
    requires IsVolume(v) && inode < |v.inodes|
  {
    var n := v.inodes[inode];
    && 0 <= n.length <= FOURKB * DATB_SIZE
    && forall k :: 0 <= k < BlocksFor(n.length) ==> 0 <= n.blocks[k] < DataCount(v)
  }

  // ---------- content ----------

  function BlockBytes(v: Volume, b: nat): (bytes: seq<byte>)
    requires b < DataCount(v)
    ensures |bytes| == FOURKB
  {
    v.data[FOURKB * b..FOURKB * (b + 1)]
  }

  /** The first n listed blocks, one after the other. */
  ghost function Listed(v: Volume, blocks: seq<int>, n: nat): (bytes: seq<byte>)
    requires n <= |blocks|
    requires forall k :: 0 <= k < n ==> 0 <= blocks[k] < DataCount(v)
    ensures |bytes| == FOURKB * n
  {
    if n == 0 then [] else Listed(v, blocks, n - 1) + BlockBytes(v, blocks[n - 1])
  }

  /** What a file is: its listed blocks one after the other, cut at its length. */
  ghost function Content(v: Volume, inode: nat): (bytes: seq<byte>)
    requires IsVolume(v) && inode < |v.inodes| && FileOk(v, inode)
    ensures |bytes| == v.inodes[inode].length
  {
    var n := v.inodes[inode];
    Listed(v, n.blocks, BlocksFor(n.length))[..n.length]
  }

  /** Position i of a file lies in a listed, existing block. */
  predicate Good(v: Volume, inode: nat, i: nat)
    requires IsVolume(v) && inode < |v.inodes|
  {
    i / FOURKB < DATB_SIZE && 0 <= v.inodes[inode].blocks[i / FOURKB] < DataCount(v)
  }

  /** The byte that read_data fetches for position i of a file. */
  function ByteAt(v: Volume, inode: nat, i: nat): byte
    requires IsVolume(v) && inode < |v.inodes| && Good(v, inode, i)
  {
    v.data[FOURKB * v.inodes[inode].blocks[i / FOURKB] + i % FOURKB]
  }

  lemma {:induction false} ListedAt(v: Volume, blocks: seq<int>, n: nat, i: nat)
    requires n <= |blocks| && i < FOURKB * n
    requires forall k :: 0 <= k < n ==> 0 <= blocks[k] < DataCount(v)
    ensures Listed(v, blocks, n)[i] == v.data[FOURKB * blocks[i / FOURKB] + i % FOURKB]
  {
    if i < FOURKB * (n - 1) {
      ListedAt(v, blocks, n - 1, i);
    } else {
      assert i / FOURKB == n - 1 && i % FOURKB == i - FOURKB * (n - 1);
    }
  }

  /** Block and offset arithmetic addresses exactly the content. */
  lemma ContentAt(v: Volume, inode: nat, i: nat)
    requires IsVolume(v) && inode < |v.inodes| && FileOk(v, inode) && i < v.inodes[inode].length
    ensures Good(v, inode, i)
    ensures Content(v, inode)[i] == ByteAt(v, inode, i)
  {
    var n := v.inodes[inode];
    assert i / FOURKB < BlocksFor(n.length) <= DATB_SIZE;
    ListedAt(v, n.blocks, BlocksFor(n.length), i);
  }

  /** All r positions from offset on are good. */
  predicate AllGood(v: Volume, inode: nat, offset: nat, r: nat)
    requires IsVolume(v) && inode < |v.inodes|
  {
    r == 0 || (AllGood(v, inode, offset, r - 1) && Good(v, inode, offset + r - 1))
  }

  /** The r bytes read_data fetches from offset on. */
  function Fetched(v: Volume, inode: nat, offset: nat, r: nat): (bytes: seq<byte>)
    requires IsVolume(v) && inode < |v.inodes| && AllGood(v, inode, offset, r)
    ensures |bytes| == r
  {
    if r == 0 then [] else Fetched(v, inode, offset, r - 1) + [ByteAt(v, inode, offset + r - 1)]
  }

  lemma {:induction false} OneBadSpoilsAll(v: Volume, inode: nat, offset: nat, r: nat, j: nat)
    requires IsVolume(v) && inode < |v.inodes| && j < r && !Good(v, inode, offset + j)
    ensures !AllGood(v, inode, offset, r)
  {
    if j < r - 1 {
      OneBadSpoilsAll(v, inode, offset, r - 1, j);
    }
  }

  /** Reading by address delivers a slice of the concatenated blocks. */
  lemma {:induction false} FetchedIsContent(v: Volume, inode: nat, offset: nat, r: nat)
    requires IsVolume(v) && inode < |v.inodes| && FileOk(v, inode)
    requires offset + r <= v.inodes[inode].length
    ensures AllGood(v, inode, offset, r)
    ensures Fetched(v, inode, offset, r) == Content(v, inode)[offset..offset + r]
  {
    if r > 0 {
      FetchedIsContent(v, inode, offset, r - 1);
      ContentAt(v, inode, offset + r - 1);
      var c := Content(v, inode);
      assert c[offset..offset + r] == c[offset..offset + r - 1] + [c[offset + r - 1]];
    }
  }

  /** How many bytes a read that does not fail delivers. */
  function Deliverable(length: int, offset: nat, size: nat): nat {
    if offset <= length then Min(size, length - offset) else 0
  }

  ghost predicate ReadFails(v: Volume, inode: nat, offset: nat, size: nat)
    requires IsVolume(v)
  {
    || inode >= |v.inodes|
    || (size > 0 && offset > v.inodes[inode].length)
    || (size > 0 && offset < v.inodes[inode].length &&
          (v.inodes[inode].length > FOURKB * DATB_SIZE
           || !AllGood(v, inode, offset, Deliverable(v.inodes[inode].length, offset, size))))
  }

  /** On a sound file a read fails only when it starts beyond the end. */
  lemma SoundReadFails(v: Volume, inode: nat, offset: nat, size: nat)
    requires IsVolume(v) && inode < |v.inodes| && FileOk(v, inode)
    ensures Readable(v, inode)
    ensures ReadFails(v, inode, offset, size) <==> size > 0 && offset > v.inodes[inode].length
  {
    if offset <= v.inodes[inode].length {
      FetchedIsContent(v, inode, offset, Deliverable(v.inodes[inode].length, offset, size));
    }
  }

  // ---------- directory ----------

  function Name(v: Volume, i: nat): seq<byte>
    requires IsVolume(v) && i < NUMDIR
  {
    FieldText(v.entries[i].filename)
  }

  /** The first directory entry from `from` on with this name; NUMDIR if there is none. */
  function FirstNamed(v: Volume, name: seq<byte>, from: nat): (i: nat)
    requires IsVolume(v) && from <= NUMDIR
    ensures from <= i <= NUMDIR
    ensures i < NUMDIR ==> Name(v, i) == name
    ensures forall k :: from <= k < i ==> Name(v, k) != name
    decreases NUMDIR - from
  {
    if from == NUMDIR || Name(v, from) == name then from else FirstNamed(v, name, from + 1)
  }

  /** The entry a file name resolves to. */
  function Lookup(v: Volume, name: seq<byte>): (i: nat)
    requires IsVolume(v)
    ensures i <= NUMDIR
    ensures i < NUMDIR ==> Name(v, i) == name && 1 <= |name| <= NAMELEN
  {
    if 1 <= |name| <= NAMELEN then FirstNamed(v, name, 0) else NUMDIR
  }

  /** What the kernel relies on: a proper directory, and files that may list missing blocks but none
      that the check of read_data overlooks. */
  ghost predicate Sound(v: Volume) {
    && IsVolume(v)
    && (forall inode {:trigger Readable(v, inode)} :: 0 <= inode < |v.inodes| ==> Readable(v, inode))
    && 0 <= v.dirCount < NUMDIR && v.dirCount < |v.inodes|
    && (forall i {:trigger Name(v, i)} :: 0 <= i < v.dirCount ==>
          Name(v, i) != [] && 0 <= v.entries[i].inodeNum < |v.inodes|)
    && (forall i {:trigger Name(v, i)} :: v.dirCount <= i < NUMDIR ==> Name(v, i) == [])
  }

  /** Every name in the directory finds an entry with that name, at or before its own; with unique
      names it finds its own.  A name that resolves is in the directory. */
  lemma LookupFindsNames(v: Volume, i: nat)
    requires Sound(v) && i < v.dirCount
    ensures Lookup(v, Name(v, i)) <= i
    ensures (forall k :: 0 <= k < v.dirCount && k != i ==> Name(v, k) != Name(v, i)) ==> Lookup(v, Name(v, i)) == i
  {
    assert |Name(v, i)| <= NAMELEN;
  }

  lemma LookupStaysInDirectory(v: Volume, name: seq<byte>)
    requires Sound(v)
    ensures Lookup(v, name) < NUMDIR <==>
              1 <= |name| <= NAMELEN && exists i :: 0 <= i < v.dirCount && Name(v, i) == name
    ensures Lookup(v, name) < NUMDIR ==> Lookup(v, name) < v.dirCount
  {
  }

  // ---------- images ----------

  /** A little-endian two's-complement word. */
  function I32(img: seq<byte>, a: nat): int
    requires a + 4 <= |img|
  {
    var b0: int, b1: int, b2: int, b3: int := img[a], img[a + 1], img[a + 2], img[a + 3];
    var u := b0 + 0x100 * b1 + 0x1_0000 * b2 + 0x100_0000 * b3;
    if u < 0x8000_0000 then u else u - 0x1_0000_0000
  }

  lemma WordIn(img: seq<byte>, a: nat, size: nat, at: nat)
    requires a + size <= |img| && at + 4 <= size
    ensures I32(img[a..a + size], at) == I32(img, a + at)
  {
  }

  function DentryAddr(i: nat): nat {
    64 + 64 * i
  }

  function InodeAddr(inode: nat): nat {
    FOURKB + FOURKB * inode
  }

  function DataAddr(inodeCount: nat): nat {
    FOURKB + FOURKB * inodeCount
  }

  ghost predicate DecodesInode(img: seq<byte>, v: Volume, inode: nat, k: nat)
    requires IsVolume(v) && inode < |v.inodes| && k < DATB_SIZE && |img| >= DataAddr(|v.inodes|)
  {
    && I32(img, InodeAddr(inode)) == v.inodes[inode].length
    && I32(img, InodeAddr(inode) + 4 + 4 * k) == v.inodes[inode].blocks[k]
  }

  ghost predicate DecodesEntry(img: seq<byte>, v: Volume, i: nat)
    requires IsVolume(v) && i < NUMDIR && |img| >= FOURKB
  {
    && img[DentryAddr(i)..DentryAddr(i) + NAMELEN] == v.entries[i].filename
    && I32(img, DentryAddr(i) + NAMELEN) == v.entries[i].filetype
    && I32(img, DentryAddr(i) + NAMELEN + 4) == v.entries[i].inodeNum
    && |FieldText(img[DentryAddr(i)..DentryAddr(i) + 64])| < 64
  }

  /** The flat image img lays out the volume v. */
  ghost predicate Decodes(img: seq<byte>, v: Volume) {
    && IsVolume(v) && |img| <= 0x1_0000_0000
    && |img| == DataAddr(|v.inodes|) + |v.data|
    && I32(img, 0) == v.dirCount && I32(img, 4) == |v.inodes| && I32(img, 8) == DataCount(v)
    && (forall i :: 0 <= i < NUMDIR ==> DecodesEntry(img, v, i))
    && (forall inode, k :: 0 <= inode < |v.inodes| && 0 <= k < DATB_SIZE ==> DecodesInode(img, v, inode, k))
    && img[DataAddr(|v.inodes|)..] == v.data
  }

  // ---------- reading by address ----------

  /** One turn of the loop of read_data: the byte it takes for a position, or that it rejects the
      block number, or that the address it follows is not one of the image. */
  datatype Access = Got(b: byte) | Rejected | Outside

  function AccessAt(img: seq<byte>, inode: nat, pos: nat): Access
    requires |img| >= FOURKB && I32(img, 4) >= 0
  {
    var a := InodeAddr(inode) + 4 + 4 * (pos / FOURKB);
    if a + 4 > |img| then Outside
    else if I32(img, a) > I32(img, 8) then Rejected
    else
      var address := (DataAddr(I32(img, 4)) + FOURKB * I32(img, a) + pos % FOURKB) % 0x1_0000_0000;
      if address < |img| then Got(img[address]) else Outside
  }

  /** The bytes taken for the r positions from offset on, up to the first that is not taken. */
  function Taken(img: seq<byte>, inode: nat, offset: nat, r: nat): (bytes: seq<byte>)
    requires |img| >= FOURKB && I32(img, 4) >= 0
    ensures |bytes| <= r
    ensures |bytes| < r ==> !AccessAt(img, inode, offset + |bytes|).Got?
    decreases r
  {
    if r == 0 then []
    else match AccessAt(img, inode, offset)
      case Got(b) => [b] + Taken(img, inode, offset + 1, r - 1)
      case Rejected => []
      case Outside => []
  }

  lemma {:induction false} TakenAt(img: seq<byte>, inode: nat, offset: nat, r: nat, k: nat)
    requires |img| >= FOURKB && I32(img, 4) >= 0 && k < |Taken(img, inode, offset, r)|
    ensures AccessAt(img, inode, offset + k) == Got(Taken(img, inode, offset, r)[k])
    decreases r
  {
    if k > 0 {
      TakenAt(img, inode, offset + 1, r - 1, k - 1);
    }
  }

  /** What is taken is determined position by position. */
  lemma {:induction false} TakenUnique(img: seq<byte>, inode: nat, offset: nat, r: nat, got: seq<byte>)
    requires |img| >= FOURKB && I32(img, 4) >= 0 && |got| <= r
    requires forall k :: 0 <= k < |got| ==> AccessAt(img, inode, offset + k) == Got(got[k])
    requires |got| < r ==> !AccessAt(img, inode, offset + |got|).Got?
    ensures Taken(img, inode, offset, r) == got
    decreases r
  {
    if got != [] {
      assert AccessAt(img, inode, offset + 0) == Got(got[0]);
      forall k | 0 <= k < |got| - 1 ensures AccessAt(img, inode, offset + 1 + k) == Got(got[1..][k]) {
        assert AccessAt(img, inode, offset + (k + 1)) == Got(got[k + 1]);
      }
      TakenUnique(img, inode, offset + 1, r - 1, got[1..]);
    }
  }

  /** The length of a file as the comparisons of read_data see it. */
  function Unsigned(n: int): (u: nat)
    requires -0x8000_0000 <= n
    ensures n < 0x8000_0000 ==> u < 0x1_0000_0000
    ensures (u - n) % 0x1_0000_0000 == 0
  {
    if n < 0 then n + 0x1_0000_0000 else n
  }

  /** How a call of read_data ends, and what it has stored by then. */
  datatype Reading =
    | Fails(bytes: seq<byte>)
    | Reads(bytes: seq<byte>)
    | Leaves(bytes: seq<byte>)  // it goes on outside the image

  /** The number of bytes the loop is set to copy; 0 when a check before it ends the call. */
  function Wanted(img: seq<byte>, inode: nat, offset: uint32, size: uint32): (n: nat)
    requires |img| >= FOURKB && 0 <= I32(img, 4) && |img| >= DataAddr(I32(img, 4))
    ensures n <= size
  {
    if inode >= I32(img, 4) || size == 0 then 0
    else
      var length := I32(img, InodeAddr(inode));
      if offset >= Unsigned(length) || length >= FOURKB * (DATB_SIZE + 1) then 0
      else if Unsigned(length) < (size + offset) % 0x1_0000_0000 then Unsigned(length) - offset
      else size
  }

  /** How the loop ends. */
  function Looped(img: seq<byte>, inode: nat, offset: nat, want: nat): (r: Reading)
    requires |img| >= FOURKB && I32(img, 4) >= 0
    ensures r.bytes == Taken(img, inode, offset, want)
  {
    var bytes := Taken(img, inode, offset, want);
    if |bytes| == want then Reads(bytes)
    else if AccessAt(img, inode, offset + |bytes|).Rejected? then Fails(bytes)
    else Leaves(bytes)
  }

  function ReadingOf(img: seq<byte>, inode: nat, offset: uint32, size: uint32): (r: Reading)
    requires |img| >= FOURKB && 0 <= I32(img, 4) && |img| >= DataAddr(I32(img, 4))
    ensures |r.bytes| <= Wanted(img, inode, offset, size)
  {
    if Wanted(img, inode, offset, size) > 0 then Looped(img, inode, offset, Wanted(img, inode, offset, size))
    else if inode >= I32(img, 4) || (size > 0 && offset != Unsigned(I32(img, InodeAddr(inode)))) then Fails([])
    else Reads([])
  }

  /** The arithmetic of one access, given what the words in front of the data say. */
  lemma AccessArithmetic(img: seq<byte>, inodes: nat, count: nat, inode: nat, pos: nat, n: int)
    requires inode < inodes && pos / FOURKB < DATB_SIZE
    requires |img| == DataAddr(inodes) + FOURKB * count <= 0x1_0000_0000
    requires I32(img, 4) == inodes && I32(img, 8) == count
    requires InodeAddr(inode) + 4 + 4 * (pos / FOURKB) + 4 <= |img|
    requires I32(img, InodeAddr(inode) + 4 + 4 * (pos / FOURKB)) == n
    ensures AccessAt(img, inode, pos) == Rejected <==> n > count
    ensures 0 <= n < count ==>
      DataAddr(inodes) + FOURKB * n + pos % FOURKB < |img|
      && AccessAt(img, inode, pos) == Got(img[DataAddr(inodes) + FOURKB * n + pos % FOURKB])
    ensures n == count && |img| + FOURKB <= 0x1_0000_0000 ==> AccessAt(img, inode, pos) == Outside
  {
    if 0 <= n < count {
      assert FOURKB * n + FOURKB <= FOURKB * count;
    }
  }

  /** A listed block number above the block count is rejected, one below it leads to its block, and the
      block count itself, which the check lets pass, leads out of the image. */
  lemma AccessIs(img: seq<byte>, v: Volume, inode: nat, pos: nat)
    requires Decodes(img, v) && inode < |v.inodes| && pos / FOURKB < DATB_SIZE
    ensures var n := v.inodes[inode].blocks[pos / FOURKB];
      && (AccessAt(img, inode, pos) == Rejected <==> n > DataCount(v))
      && (0 <= n < DataCount(v) ==>
            FOURKB * n + pos % FOURKB < |v.data| && AccessAt(img, inode, pos) == Got(v.data[FOURKB * n + pos % FOURKB]))
      && (n == DataCount(v) && |img| + FOURKB <= 0x1_0000_0000 ==> AccessAt(img, inode, pos) == Outside)
  {
    var k := pos / FOURKB;
    assert DecodesInode(img, v, inode, k);
    var n, d := v.inodes[inode].blocks[k], DataAddr(|v.inodes|);
    AccessArithmetic(img, |v.inodes|, DataCount(v), inode, pos, n);
    if 0 <= n < DataCount(v) {
      assert img[d..][FOURKB * n + pos % FOURKB] == img[d + (FOURKB * n + pos % FOURKB)];
    }
  }

  /** Access by access, the file's positions lead to its listed blocks or are rejected. */
  ghost predicate Follows(img: seq<byte>, v: Volume, inode: nat)
    requires |img| >= FOURKB && I32(img, 4) >= 0 && IsVolume(v) && inode < |v.inodes|
  {
    forall pos: nat {:trigger AccessAt(img, inode, pos)} :: pos < v.inodes[inode].length ==>
      AccessAt(img, inode, pos) == if Good(v, inode, pos) then Got(ByteAt(v, inode, pos)) else Rejected
  }

  lemma ReadableFollows(img: seq<byte>, v: Volume, inode: nat)
    requires Decodes(img, v) && inode < |v.inodes| && Readable(v, inode) && v.inodes[inode].length <= FOURKB * DATB_SIZE
    ensures Follows(img, v, inode)
  {
    forall pos: nat | pos < v.inodes[inode].length
      ensures AccessAt(img, inode, pos) == if Good(v, inode, pos) then Got(ByteAt(v, inode, pos)) else Rejected
    {
      assert pos / FOURKB < BlocksFor(v.inodes[inode].length);
      AccessIs(img, v, inode, pos);
    }
  }

  lemma {:induction false} FetchedAt(v: Volume, inode: nat, offset: nat, r: nat, k: nat)
    requires IsVolume(v) && inode < |v.inodes| && AllGood(v, inode, offset, r) && k < r
    ensures Good(v, inode, offset + k) && Fetched(v, inode, offset, r)[k] == ByteAt(v, inode, offset + k)
  {
    if k < r - 1 {
      FetchedAt(v, inode, offset, r - 1, k);
    }
  }

  lemma {:induction false} GoodWhileTaken(img: seq<byte>, v: Volume, inode: nat, offset: nat, r: nat, n: nat)
    requires |img| >= FOURKB && I32(img, 4) >= 0 && IsVolume(v) && inode < |v.inodes| && Follows(img, v, inode)
    requires offset + r <= v.inodes[inode].length && n <= |Taken(img, inode, offset, r)|
    ensures AllGood(v, inode, offset, n)
  {
    if n > 0 {
      GoodWhileTaken(img, v, inode, offset, r, n - 1);
      TakenAt(img, inode, offset, r, n - 1);
    }
  }

  lemma TakenIsFetched(img: seq<byte>, v: Volume, inode: nat, offset: nat, r: nat)
    requires |img| >= FOURKB && I32(img, 4) >= 0 && IsVolume(v) && inode < |v.inodes| && Follows(img, v, inode)
    requires offset + r <= v.inodes[inode].length
    requires |Taken(img, inode, offset, r)| == r && AllGood(v, inode, offset, r)
    ensures Taken(img, inode, offset, r) == Fetched(v, inode, offset, r)
  {
    forall k | 0 <= k < r ensures Taken(img, inode, offset, r)[k] == Fetched(v, inode, offset, r)[k] {
      TakenAt(img, inode, offset, r, k);
      FetchedAt(v, inode, offset, r, k);
    }
  }

  lemma ReadableTaken(img: seq<byte>, v: Volume, inode: nat, offset: nat, r: nat)
    requires |img| >= FOURKB && I32(img, 4) >= 0 && IsVolume(v) && inode < |v.inodes| && Follows(img, v, inode)
    requires offset + r <= v.inodes[inode].length
    ensures var bytes := Taken(img, inode, offset, r);
      && (|bytes| == r <==> AllGood(v, inode, offset, r))
      && (|bytes| < r ==> AccessAt(img, inode, offset + |bytes|).Rejected?)
      && (|bytes| == r ==> bytes == Fetched(v, inode, offset, r))
  {
    var n := |Taken(img, inode, offset, r)|;
    if n < r {
      OneBadSpoilsAll(v, inode, offset, r, n);
    } else {
      GoodWhileTaken(img, v, inode, offset, r, r);
      TakenIsFetched(img, v, inode, offset, r);
    }
  }

  /** What a reading of a readable file looks like from the volume. */
  ghost predicate IsReading(v: Volume, inode: nat, offset: nat, size: nat, r: Reading)
    requires IsVolume(v)
  {
    && !r.Leaves? && (r.Fails? <==> ReadFails(v, inode, offset, size))
    && (inode >= |v.inodes| ==> r.bytes == [])
    && (inode < |v.inodes| ==>
          var n := Deliverable(v.inodes[inode].length, offset, size);
          && |r.bytes| <= n
          && (r.Reads? ==> |r.bytes| == n)
          && (r.Reads? && n > 0 ==> AllGood(v, inode, offset, n) && r.bytes == Fetched(v, inode, offset, n)))
  }

  lemma WantedOf(img: seq<byte>, v: Volume, inode: nat, offset: uint32, size: uint32)
    requires Decodes(img, v) && size < 0x8000_0000 && inode < |v.inodes| && Readable(v, inode)
    ensures |img| >= DataAddr(I32(img, 4)) >= FOURKB && I32(img, InodeAddr(inode)) == v.inodes[inode].length
    ensures Wanted(img, inode, offset, size) ==
              if v.inodes[inode].length > FOURKB * DATB_SIZE then 0
              else Deliverable(v.inodes[inode].length, offset, size)
  {
    assert DecodesInode(img, v, inode, 0);
  }

  /** The loop of read_data ends in a proper reading of the volume. */
  lemma LoopReading(img: seq<byte>, v: Volume, inode: nat, offset: nat, size: nat)
    requires |img| >= FOURKB && 0 <= I32(img, 4)
    requires IsVolume(v) && inode < |v.inodes| && Follows(img, v, inode)
    requires 0 < Deliverable(v.inodes[inode].length, offset, size) && v.inodes[inode].length <= FOURKB * DATB_SIZE
    ensures IsReading(v, inode, offset, size,
                      Looped(img, inode, offset, Deliverable(v.inodes[inode].length, offset, size)))
  {
    ReadableTaken(img, v, inode, offset, Deliverable(v.inodes[inode].length, offset, size));
  }

  /** On a readable file read_data stays in the image, fails exactly as ReadFails says, and otherwise
      delivers the bytes of the listed blocks. */
  lemma ReadableReading(img: seq<byte>, v: Volume, inode: nat, offset: uint32, size: uint32)
    requires Decodes(img, v) && size < 0x8000_0000 && (inode < |v.inodes| ==> Readable(v, inode))
    ensures |img| >= DataAddr(I32(img, 4)) >= FOURKB
    ensures IsReading(v, inode, offset, size, ReadingOf(img, inode, offset, size))
  {
    if inode < |v.inodes| {
      WantedOf(img, v, inode, offset, size);
      if Wanted(img, inode, offset, size) > 0 {
        ReadableFollows(img, v, inode);
        LoopReading(img, v, inode, offset, size);
      }
    }
  }

  /** On a file whose blocks all exist the bytes read are the part of the content asked for. */
  lemma SoundReading(img: seq<byte>, v: Volume, inode: nat, offset: uint32, size: uint32)
    requires Decodes(img, v) && size < 0x8000_0000 && inode < |v.inodes| && FileOk(v, inode)
    requires offset <= v.inodes[inode].length
    ensures |img| >= DataAddr(I32(img, 4)) >= FOURKB
    ensures var r := Deliverable(v.inodes[inode].length, offset, size);
      ReadingOf(img, inode, offset, size) == Reads(Content(v, inode)[offset..offset + r])
  {
    SoundReadFails(v, inode, offset, size);
    ReadableReading(img, v, inode, offset, size);
    FetchedIsContent(v, inode, offset, Deliverable(v.inodes[inode].length, offset, size));
  }

  /** The image is in memory and is never written. */
  class Disk {
    const image: seq<byte>
    ghost const vol: Volume
    const inodeAddr: nat
    const dataAddr: nat

    ghost predicate Valid() {
      Decodes(image, vol) && inodeAddr == InodeAddr(0) && dataAddr == DataAddr(|vol.inodes|)
    }

    /** What reading by address needs: room for the inodes, and the two base addresses. */
    predicate Mapped() {
      && |image| >= FOURKB && I32(image, 4) >= 0 && |image| >= DataAddr(I32(image, 4))
      && inodeAddr == InodeAddr(0) && dataAddr == DataAddr(I32(image, 4))
    }

    lemma ValidIsMapped()
      requires Valid()
      ensures Mapped() && I32(image, 4) == |vol.inodes|
    {
    }

    constructor FileInitMod(image: seq<byte>, ghost vol: Volume)
      requires Decodes(image, vol)
      ensures this.image == image && this.vol == vol && Valid()
    {
      this.image := image;
      this.vol := vol;
      inodeAddr := FOURKB;
      dataAddr := I32(image, 4) * FOURKB + FOURKB;
    }

    method DirCount() returns (n: int)
      requires Valid()
      ensures n == vol.dirCount
    {
      n := I32(image, 0);
    }

    method Entry(i: nat) returns (d: Dentry)
      requires Valid() && i < NUMDIR
      ensures d == vol.entries[i]
    {
      var a := DentryAddr(i);
      d := Dentry(image[a..a + NAMELEN], I32(image, a + NAMELEN), I32(image, a + NAMELEN + 4));
      assert DecodesEntry(image, vol, i);
    }

    method CompareName(i: nat, fname: array<byte>, at: nat, ghost text: seq<byte>) returns (order: int)
      requires Valid() && i < NUMDIR && IsCString(fname[..], at, text) && |text| <= NAMELEN
      ensures order == 0 <==> Name(vol, i) == text
    {
      assert DecodesEntry(image, vol, i);
      assert image[DentryAddr(i)..DentryAddr(i) + NAMELEN] == vol.entries[i].filename;
      order := Strncmp(image, DentryAddr(i), fname, at, NAMELEN, text);
    }

    /** One turn of the loop of read_data, up to the store. */
    method Fetch(inode: nat, pos: nat) returns (a: Access)
      requires Mapped()
      ensures a == AccessAt(image, inode, pos)
    {
      var curBlock := pos / FOURKB;
      var entry := inodeAddr + FOURKB * inode + 4 + 4 * curBlock;
      if entry + 4 > |image| {
        return Outside;
      }
      var number := I32(image, entry);
      if number > I32(image, 8) {
        return Rejected;
      }
      var address := (dataAddr + FOURKB * number + pos % FOURKB) % 0x1_0000_0000;
      if address >= |image| {
        return Outside;
      }
      a := Got(image[address]);
    }

    /** The checks in front of the loop of read_data: `left` bytes are to be copied, or the call ends
        with ret. */
    method CheckRead(inode: uint32, offset: uint32, size: uint32) returns (ret: int, left: nat)
      requires Mapped()
      ensures left == Wanted(image, inode, offset, size)
      ensures left == 0 ==>
        ReadingOf(image, inode, offset, size) == (if ret == -1 then Fails([]) else Reads([])) && (ret == -1 || ret == 0)
    {
      var inodeCount := I32(image, 4);
      if inode >= inodeCount {
        return -1, 0;
      }
      if size == 0 {
        return 0, 0;
      }
      var length := I32(image, inodeAddr + FOURKB * inode);
      if offset > Unsigned(length) {
        return -1, 0;
      }
      if offset == Unsigned(length) {
        return 0, 0;
      }
      if length >= FOURKB * (DATB_SIZE + 1) {
        return -1, 0;
      }
      ret, left := 0, size;
      if Unsigned(length) < (size + offset) % 0x1_0000_0000 {
        left := Unsigned(length) - offset;
      }
    }

    /** Copies up to size bytes of a file, from offset on, to buf[at..].  Where read_data
        would follow an address outside the image, this stops and says so. */
    method ReadData(inode: uint32, offset: uint32, buf: array<byte>, at: nat, size: uint32)
      returns (ret: int, outside: bool)
      requires Mapped()
      requires at + Wanted(image, inode, offset, size) <= buf.Length
      modifies buf
      ensures var r := ReadingOf(image, inode, offset, size);
        && at + |r.bytes| <= buf.Length
        && buf[..] == Splice(old(buf[..]), at, r.bytes)
        && outside == r.Leaves? && ret == if r.Reads? then |r.bytes| else -1
    {
      var left;
      ret, left := CheckRead(inode, offset, size);
      outside := false;
      if left > 0 {
        ret, outside := Transfer(inode, offset, buf, at, left);
      } else {
        assert Splice(buf[..], at, []) == buf[..];
      }
    }

    /** The copy loop of read_data: byte by byte, looking up the block of every position. */
    method Transfer(inode: uint32, offset: uint32, buf: array<byte>, at: nat, size: nat)
      returns (ret: int, outside: bool)
      requires Mapped() && at + size <= buf.Length
      modifies buf
      ensures var bytes := Taken(image, inode, offset, size);
        && buf[..] == Splice(old(buf[..]), at, bytes)
        && ret == (if |bytes| == size then size else -1)
        && (outside <==> |bytes| < size && AccessAt(image, inode, offset + |bytes|).Outside?)
    {
      var left: nat, pos: nat, cursor := size, offset, at;
      ghost var got: seq<byte> := [];
      while left > 0
        invariant |got| + left == size && pos == offset + |got| && cursor == at + |got|
        invariant forall k {:trigger got[k]} :: 0 <= k < |got| ==> AccessAt(image, inode, offset + k) == Got(got[k])
        invariant forall k {:trigger buf[k]} :: at <= k < cursor ==> buf[k] == got[k - at]
        invariant forall k :: 0 <= k < buf.Length && !(at <= k < cursor) ==> buf[k] == old(buf[k])
      {
        var a := Fetch(inode, pos);
        if !a.Got? {
          TakenUnique(image, inode, offset, size, got);
          SplicedWhere(old(buf[..]), at, got, buf[..]);
          return -1, a.Outside?;
        }
        buf[cursor] := a.b;
        got := got + [a.b];
        left, pos, cursor := left - 1, pos + 1, cursor + 1;
      }
      TakenUnique(image, inode, offset, size, got);
      SplicedWhere(old(buf[..]), at, got, buf[..]);
      return size, false;
    }

    /** Finds the first directory entry with the given name. */
    method ReadDentryByName(fname: array<byte>, at: nat, ghost text: seq<byte>) returns (ret: int, d: Dentry)
      requires Valid() && IsCString(fname[..], at, text)
      ensures ret == if Lookup(vol, text) < NUMDIR then 0 else -1
      ensures ret == 0 ==> d == vol.entries[Lookup(vol, text)]
    {
      d := Dentry([], 0, 0);
      var nameLen := Strlen(fname, at, text);
      if nameLen > NAMELEN || nameLen == 0 {
        return -1, d;
      }
      var i := 0;
      while i < NUMDIR
        invariant 0 <= i <= NUMDIR
        invariant FirstNamed(vol, text, 0) == FirstNamed(vol, text, i)
      {
        var order := CompareName(i, fname, at, text);
        if order == 0 {
          d := Entry(i);
          return 0, d;
        }
        i := i + 1;
      }
      ret := -1;
    }

    /** The 64 bytes that an index selects; from index 63 on they are no directory entry but lie in the
        inodes behind the boot block. */
    ghost function EntryBytes(index: nat): (bytes: seq<byte>)
      requires Valid() && index < |vol.inodes|
      ensures |bytes| == 64
    {
      image[DentryAddr(index)..DentryAddr(index) + 64]
    }

    lemma EntryBytesAre(index: nat)
      requires Valid() && index < |vol.inodes| && index < NUMDIR
      ensures var bytes := EntryBytes(index);
        && |FieldText(bytes)| < 64 && FieldText(bytes[..NAMELEN]) == Name(vol, index)
        && I32(bytes, NAMELEN) == vol.entries[index].filetype && I32(bytes, NAMELEN + 4) == vol.entries[index].inodeNum
    {
      var a := DentryAddr(index);
      assert DecodesEntry(image, vol, index);
      SliceOfSlice(image, a, 64, NAMELEN);
      WordIn(image, a, 64, NAMELEN);
      WordIn(image, a, 64, NAMELEN + 4);
    }

    /** Copies the name of a directory entry into the 64 bytes of a dentry_t; where a full-length
        name spills over the next fields, these are assigned afterwards.  The copy ends inside the
        dentry_t if and only if the bytes hold a NUL; `spills` says that it does not. */
    method ReadDentryByIndex(index: uint32, entry: array<byte>)
      returns (ret: int, filetype: int, inodeNum: int, spills: bool)
      requires Valid() && entry.Length == 64
      modifies entry
      ensures ret == if index >= |vol.inodes| then -1 else 0
      ensures ret == -1 ==> entry[..] == old(entry[..]) && !spills
      ensures ret == 0 ==> (spills <==> |FieldText(EntryBytes(index))| == 64)
      ensures ret == 0 && !spills ==>
        && FieldText(entry[..NAMELEN]) == FieldText(EntryBytes(index)[..NAMELEN])
        && filetype == I32(EntryBytes(index), NAMELEN) && inodeNum == I32(EntryBytes(index), NAMELEN + 4)
    {
      ValidIsMapped();
      if index >= I32(image, 4) {
        return -1, 0, 0, false;
      }
      filetype, inodeNum, spills := CopyEntry(DentryAddr(index), entry);
      ret := 0;
    }

    method CopyEntry(a: nat, entry: array<byte>) returns (filetype: int, inodeNum: int, spills: bool)
      requires a + 64 <= |image| && entry.Length == 64
      modifies entry
      ensures spills <==> |FieldText(image[a..a + 64])| == 64
      ensures var field := image[a..a + 64];
        !spills ==>
          && FieldText(entry[..NAMELEN]) == FieldText(field[..NAMELEN])
          && filetype == I32(field, NAMELEN) && inodeNum == I32(field, NAMELEN + 4)
    {
      var n := Spilling(a);
      if n == 64 {
        return 0, 0, true;
      }
      WordIn(image, a, 64, NAMELEN);
      WordIn(image, a, 64, NAMELEN + 4);
      filetype := I32(image, a + NAMELEN);
      inodeNum := I32(image, a + NAMELEN + 4);
      CopyField(entry, a, image[a..a + 64]);
      spills := false;
    }

    /** How far the string at an address of the image reaches, up to the size of a dentry_t. */
    method Spilling(a: nat) returns (n: nat)
      requires a + 64 <= |image|
      ensures n == |FieldText(image[a..a + 64])|
    {
      ghost var field := image[a..a + 64];
      n := 0;
      while n < 64 && image[a + n] != NUL
        invariant 0 <= n <= 64 && |FieldText(field)| == n + |FieldText(field[n..])|
      {
        assert field[n..][0] == image[a + n] && field[n..][1..] == field[n + 1..];
        n := n + 1;
      }
    }

    method CopyField(entry: array<byte>, a: nat, ghost field: seq<byte>)
      requires entry.Length == 64 && a + 64 <= |image| && field == image[a..a + 64] && |FieldText(field)| < 64
      modifies entry
      ensures FieldText(entry[..NAMELEN]) == FieldText(field[..NAMELEN])
    {
      ghost var text := FieldText(field);
      FieldIsCString(image, a, 64);
      FieldTextClip(field, NAMELEN);
      Strcpy(entry, 0, image, a, text);
      assert entry[..][0..] == entry[..];
      FieldTextClip(entry[..], NAMELEN);
      assert entry[..][..NAMELEN] == entry[..NAMELEN];
    }
  }
}
