/**
  Building an image from front to back, and what an image says: the byte order of its words and the
  places of its parts.
 */
module Images {
  import opened Common
  import opened CStrings
  import opened FileSystem

  /** The k lowest digits of a number in base 256, lowest first. */
  function Digits(n: nat, k: nat): (digits: seq<byte>)
    ensures |digits| == k
  {
    if k == 0 then [] else [n % 0x100] + Digits(n / 0x100, k - 1)
  }

  predicate IsWord(n: int) {
    -0x8000_0000 <= n < 0x8000_0000
  }

  /** A number as the four bytes of a 32-bit word. */
  function Word(n: int): (word: seq<byte>)
    requires IsWord(n)
    ensures |word| == 4
  {
    Digits(n % 0x1_0000_0000, 4)
  }

  lemma DigitsAre(b0: byte, b1: byte, b2: byte, b3: byte)
    ensures Digits(b0 + 0x100 * b1 + 0x1_0000 * b2 + 0x100_0000 * b3, 4) == [b0, b1, b2, b3]
  {
    LowestDigit(b3, 0, 0);
    LowestDigit(b2, b3, 1);
    LowestDigit(b1, b2 + 0x100 * b3, 2);
    LowestDigit(b0, b1 + 0x100 * (b2 + 0x100 * b3), 3);
  }

  lemma LowestDigit(b: byte, u: nat, k: nat)
    ensures Digits(b + 0x100 * u, k + 1) == [b] + Digits(u, k)
  {
    assert (b + 0x100 * u) % 0x100 == b && (b + 0x100 * u) / 0x100 == u;
  }

  /** The byte order of the image: a place says n exactly if it holds the digits of n, lowest first,
      negative numbers as their two's complement. */
  lemma WordIff(img: seq<byte>, a: nat, n: int)
    requires a + 4 <= |img| && IsWord(n)
    ensures I32(img, a) == n <==> img[a..a + 4] == Word(n)
    ensures IsWord(I32(img, a))
  {
    var b0: byte, b1: byte, b2: byte, b3: byte := img[a], img[a + 1], img[a + 2], img[a + 3];
    var u := b0 + 0x100 * b1 + 0x1_0000 * b2 + 0x100_0000 * b3;
    assert img[a..a + 4] == [b0, b1, b2, b3];
    DigitsAre(b0, b1, b2, b3);
    if I32(img, a) == n {
      assert n % 0x1_0000_0000 == u;
    }
    if img[a..a + 4] == Word(n) {
      DigitsDetermine(u, n % 0x1_0000_0000);
    }
  }

  lemma DigitsDetermine(u: uint32, w: uint32)
    requires Digits(u, 4) == Digits(w, 4)
    ensures u == w
  {
    FromDigits(u);
    FromDigits(w);
  }

  lemma FromDigits(u: uint32)
    ensures var d := Digits(u, 4);
      u == d[0] as int + 0x100 * d[1] as int + 0x1_0000 * d[2] as int + 0x100_0000 * d[3] as int
  {
    var u1: nat, u2: nat, u3: nat := u / 0x100, u / 0x100 / 0x100, u / 0x100 / 0x100 / 0x100;
    assert Digits(u3, 1) == [u3 % 0x100] + Digits(u3 / 0x100, 0);
    assert Digits(u2, 2) == [u2 % 0x100] + Digits(u3, 1);
    assert Digits(u1, 3) == [u1 % 0x100] + Digits(u2, 2);
    assert u3 < 0x100;
  }

  // ---------- pieces of equal size ----------

  function Concat(pieces: seq<seq<byte>>): seq<byte> {
    if pieces == [] then [] else Concat(pieces[..|pieces| - 1]) + pieces[|pieces| - 1]
  }

  ghost predicate AllOf(pieces: seq<seq<byte>>, size: nat) {
    forall k :: 0 <= k < |pieces| ==> |pieces[k]| == size
  }

  lemma {:induction false} ConcatSize(pieces: seq<seq<byte>>, size: nat)
    requires AllOf(pieces, size)
    ensures |Concat(pieces)| == size * |pieces|
  {
    if pieces != [] {
      ConcatSize(pieces[..|pieces| - 1], size);
      assert size * |pieces| == size * (|pieces| - 1) + size;
    }
  }

  /** A place behind k whole pieces. */
  lemma Within(size: nat, k: nat, n: nat)
    requires k < n
    ensures size * k + size == size * (k + 1) <= size * n
  {
    assert size * n == size * (k + 1) + size * (n - k - 1);
  }

  lemma {:induction false} PieceOf(pieces: seq<seq<byte>>, size: nat, k: nat)
    requires AllOf(pieces, size) && k < |pieces|
    ensures size * k + size <= |Concat(pieces)|
    ensures Concat(pieces)[size * k..size * k + size] == pieces[k]
  {
    var n := |pieces| - 1;
    ConcatSize(pieces, size);
    ConcatSize(pieces[..n], size);
    Within(size, k, |pieces|);
    if k < n {
      Within(size, k, n);
      PieceOf(pieces[..n], size, k);
    }
  }

  /** Equal pieces, equal whole. */
  lemma {:induction false} PiecesDetermine(pieces: seq<seq<byte>>, size: nat, s: seq<byte>)
    requires AllOf(pieces, size) && |s| == size * |pieces|
    requires forall k :: 0 <= k < |pieces| ==>
               0 <= size * k <= size * k + size <= |s| && s[size * k..size * k + size] == pieces[k]
    ensures s == Concat(pieces)
  {
    var n := |pieces| - 1;
    if n >= 0 {
      Within(size, n, |pieces|);
      var front := s[..size * n];
      forall k | 0 <= k < n
        ensures 0 <= size * k <= size * k + size <= |front| && front[size * k..size * k + size] == pieces[..n][k]
      {
        Within(size, k, n);
        assert s[size * k..size * k + size] == pieces[k];
      }
      PiecesDetermine(pieces[..n], size, front);
      assert s == front + s[size * n..size * n + size];
    }
  }

  // ---------- volumes ----------

  function Nuls(n: nat): (z: seq<byte>)
    ensures |z| == n && forall k :: 0 <= k < n ==> z[k] == NUL
  {
    seq(n, i => NUL)
  }

  /** All numbers of the volume are 32-bit numbers, and it can be addressed. */
  predicate Encodable(v: Volume) {
    && IsVolume(v) && IsWord(v.dirCount) && 4096 + 4096 * |v.inodes| + |v.data| <= 0x1_0000_0000
    && (forall i :: 0 <= i < |v.entries| ==> IsWord(v.entries[i].filetype) && IsWord(v.entries[i].inodeNum))
    && (forall i :: 0 <= i < |v.inodes| ==> EncodableInode(v.inodes[i]))
  }

  predicate EncodableInode(n: Inode) {
    |n.blocks| == DATB_SIZE && IsWord(n.length) && forall k :: 0 <= k < |n.blocks| ==> IsWord(n.blocks[k])
  }

  /** The 64 bytes of a directory entry. */
  function EntryBlock(d: Dentry): (b: seq<byte>)
    requires |d.filename| == 32 && IsWord(d.filetype) && IsWord(d.inodeNum)
    ensures |b| == 64
  {
    d.filename + Word(d.filetype) + Word(d.inodeNum) + Nuls(24)
  }

  function BlockList(n: Inode): (words: seq<seq<byte>>)
    requires EncodableInode(n)
    ensures |words| == 1023 && AllOf(words, 4)
  {
    seq(1023, k requires 0 <= k < 1023 => Word(n.blocks[k]))
  }

  /** The 4 KB of an inode. */
  function InodeBlock(n: Inode): (b: seq<byte>)
    requires EncodableInode(n)
    ensures |b| == 4096
  {
    ConcatSize(BlockList(n), 4);
    Word(n.length) + Concat(BlockList(n))
  }

  function Entries(v: Volume): (bs: seq<seq<byte>>)
    requires Encodable(v)
    ensures |bs| == 63 && AllOf(bs, 64)
  {
    seq(63, i requires 0 <= i < 63 => EntryBlock(v.entries[i]))
  }

  function Inodes(v: Volume): (bs: seq<seq<byte>>)
    requires Encodable(v)
    ensures |bs| == |v.inodes| && AllOf(bs, 4096)
  {
    seq(|v.inodes|, i requires 0 <= i < |v.inodes| => InodeBlock(v.inodes[i]))
  }

  /** The number of directory entries, inodes and data blocks, padding, and the directory. */
  function BootBlock(v: Volume): (b: seq<byte>)
    requires Encodable(v)
    ensures |b| == 4096
  {
    ConcatSize(Entries(v), 64);
    Word(v.dirCount) + Word(|v.inodes|) + Word(|v.data| / 4096) + Nuls(52) + Concat(Entries(v))
  }

  /** The volume written out from front to back. */
  function Image(v: Volume): (img: seq<byte>)
    requires Encodable(v)
    ensures |img| == 4096 + 4096 * |v.inodes| + |v.data|
  {
    ConcatSize(Inodes(v), 4096);
    BootBlock(v) + Concat(Inodes(v)) + v.data
  }

  /** A part of a part. */
  lemma Inner(s: seq<byte>, a: nat, t: seq<byte>, b: nat, n: nat)
    requires a + |t| <= |s| && s[a..a + |t|] == t && b + n <= |t|
    ensures s[a + b..a + b + n] == t[b..b + n]
  {
    var part, same := s[a + b..a + b + n], t[b..b + n];
    forall k {:trigger part[k]} | 0 <= k < n ensures part[k] == same[k] {
      assert s[a..a + |t|][b + k] == t[b + k];
    }
  }

  lemma BootPlaces(v: Volume)
    requires Encodable(v)
    ensures var img := Image(v);
      img[0..4] == Word(v.dirCount) && img[4..8] == Word(|v.inodes|) && img[8..12] == Word(|v.data| / 4096)
  {
    var boot := BootBlock(v);
    assert Image(v)[0..4096] == boot;
    assert boot[0..4] == Word(v.dirCount) && boot[4..8] == Word(|v.inodes|) && boot[8..12] == Word(|v.data| / 4096);
    Inner(Image(v), 0, boot, 0, 4);
    Inner(Image(v), 0, boot, 4, 4);
    Inner(Image(v), 0, boot, 8, 4);
  }

  lemma EntryPlace(v: Volume, i: nat)
    requires Encodable(v) && i < 63
    ensures Image(v)[64 + 64 * i..64 + 64 * i + 64] == EntryBlock(v.entries[i])
  {
    var entries := Concat(Entries(v));
    PieceOf(Entries(v), 64, i);
    ConcatSize(Entries(v), 64);
    assert BootBlock(v)[64..64 + |entries|] == entries;
    assert Image(v)[0..4096] == BootBlock(v);
    Inner(Image(v), 0, BootBlock(v), 64, |entries|);
    Inner(Image(v), 64, entries, 64 * i, 64);
  }

  lemma InodePlace(v: Volume, inode: nat)
    requires Encodable(v) && inode < |v.inodes|
    ensures 4096 + 4096 * inode + 4096 <= |Image(v)|
    ensures Image(v)[4096 + 4096 * inode..4096 + 4096 * inode + 4096] == InodeBlock(v.inodes[inode])
  {
    var inodes := Concat(Inodes(v));
    PieceOf(Inodes(v), 4096, inode);
    ConcatSize(Inodes(v), 4096);
    assert Image(v)[4096..4096 + |inodes|] == inodes;
    Inner(Image(v), 4096, inodes, 4096 * inode, 4096);
  }

  lemma InodeWords(n: Inode, k: nat)
    requires EncodableInode(n) && k < 1023
    ensures InodeBlock(n)[0..4] == Word(n.length)
    ensures InodeBlock(n)[4 + 4 * k..4 + 4 * k + 4] == Word(n.blocks[k])
  {
    var words := Concat(BlockList(n));
    PieceOf(BlockList(n), 4, k);
    ConcatSize(BlockList(n), 4);
    assert InodeBlock(n)[4..4 + |words|] == words;
    Inner(InodeBlock(n), 4, words, 4 * k, 4);
  }

  /** img is the volume written out, but for what is in the unused bytes of the boot block. */
  ghost predicate WritesOut(img: seq<byte>, v: Volume)
    requires Encodable(v)
  {
    && |img| == |Image(v)| && img[..12] == Image(v)[..12] && img[4096..] == Image(v)[4096..]
    && forall i :: 0 <= i < 63 ==> SameFields(img, Image(v), 64 + 64 * i)
  }

  predicate SameFields(img: seq<byte>, image: seq<byte>, a: nat) {
    a + 40 <= |img| && a + 40 <= |image| && img[a..a + 40] == image[a..a + 40]
  }

  /** In the 64 bytes of each directory entry is a NUL, so that copying a name ends there. */
  ghost predicate NamesEnd(img: seq<byte>)
    requires |img| >= 4096
  {
    forall i :: 0 <= i < 63 ==> NameEnds(img, 64 + 64 * i)
  }

  predicate NameEnds(img: seq<byte>, a: nat) {
    a + 64 <= |img| && NUL in img[a..a + 64]
  }

  lemma EndsIff(field: seq<byte>)
    requires |field| == 64
    ensures |FieldText(field)| < 64 <==> NUL in field
  {
    if |FieldText(field)| < 64 {
      assert field[|FieldText(field)|] == NUL;
    }
  }

  /** The used bytes of a directory entry. */
  function EntryFields(d: Dentry): (b: seq<byte>)
    requires |d.filename| == 32 && IsWord(d.filetype) && IsWord(d.inodeNum)
    ensures |b| == 40 && b == EntryBlock(d)[0..40]
  {
    d.filename + Word(d.filetype) + Word(d.inodeNum)
  }

  lemma FieldPlaces(img: seq<byte>, a: nat, d: Dentry)
    requires |d.filename| == 32 && IsWord(d.filetype) && IsWord(d.inodeNum) && a + 40 <= |img|
    ensures img[a..a + 40] == EntryFields(d) <==>
              img[a..a + 32] == d.filename && img[a + 32..a + 36] == Word(d.filetype)
              && img[a + 36..a + 40] == Word(d.inodeNum)
  {
    assert img[a..a + 40] == img[a..a + 32] + img[a + 32..a + 36] + img[a + 36..a + 40];
    var b := EntryFields(d);
    assert b[0..32] == d.filename && b[32..36] == Word(d.filetype) && b[36..40] == Word(d.inodeNum);
    if img[a..a + 40] == b {
      Inner(img, a, b, 0, 32);
      Inner(img, a, b, 32, 4);
      Inner(img, a, b, 36, 4);
    }
  }

  /** What an entry says, at any place. */
  lemma FieldsDecode(img: seq<byte>, a: nat, d: Dentry)
    requires |d.filename| == 32 && a + 40 <= |img|
    ensures img[a..a + 32] == d.filename && I32(img, a + 32) == d.filetype && I32(img, a + 36) == d.inodeNum <==>
              IsWord(d.filetype) && IsWord(d.inodeNum) && img[a..a + 40] == EntryFields(d)
  {
    WordIff(img, a + 32, 0);
    WordIff(img, a + 36, 0);
    if IsWord(d.filetype) && IsWord(d.inodeNum) {
      WordIff(img, a + 32, d.filetype);
      WordIff(img, a + 36, d.inodeNum);
      FieldPlaces(img, a, d);
    }
  }

  ghost predicate EntryAt(img: seq<byte>, a: nat, d: Dentry)
    requires a + 64 <= |img|
  {
    && img[a..a + 32] == d.filename && I32(img, a + 32) == d.filetype && I32(img, a + 36) == d.inodeNum
    && |FieldText(img[a..a + 64])| < 64
  }

  lemma EntryAtIff(img: seq<byte>, a: nat, d: Dentry)
    requires |d.filename| == 32 && a + 64 <= |img|
    ensures EntryAt(img, a, d) <==>
              IsWord(d.filetype) && IsWord(d.inodeNum) && img[a..a + 40] == EntryFields(d) && NameEnds(img, a)
  {
    FieldsDecode(img, a, d);
    EndsIff(img[a..a + 64]);
  }

  lemma EntryIsAt(img: seq<byte>, v: Volume, i: nat)
    requires IsVolume(v) && i < 63 && |img| >= 4096
    ensures DecodesEntry(img, v, i) <==> EntryAt(img, 64 + 64 * i, v.entries[i])
  {
  }

  // ---------- a volume written out is decoded ----------

  lemma FieldsPlace(v: Volume, i: nat)
    requires Encodable(v) && i < 63
    ensures Image(v)[64 + 64 * i..64 + 64 * i + 40] == EntryFields(v.entries[i])
  {
    EntryPlace(v, i);
    Inner(Image(v), 64 + 64 * i, EntryBlock(v.entries[i]), 0, 40);
  }

  lemma EntryDecodes(img: seq<byte>, v: Volume, i: nat)
    requires Encodable(v) && |img| >= 4096 && WritesOut(img, v) && NamesEnd(img) && i < 63
    ensures DecodesEntry(img, v, i)
  {
    FieldsPlace(v, i);
    assert SameFields(img, Image(v), 64 + 64 * i) && NameEnds(img, 64 + 64 * i);
    EntryAtIff(img, 64 + 64 * i, v.entries[i]);
    EntryIsAt(img, v, i);
  }

  lemma InodeDecodes(img: seq<byte>, v: Volume, inode: nat, k: nat)
    requires Encodable(v) && |img| >= 4096 && WritesOut(img, v) && inode < |v.inodes| && k < DATB_SIZE
    ensures |img| >= DataAddr(|v.inodes|) && DecodesInode(img, v, inode, k)
  {
    InodePlace(v, inode);
    SameBehind(img, Image(v), 4096 + 4096 * inode, 4096);
    Within(4096, inode, |v.inodes|);
    InodeSays(img, 4096 + 4096 * inode, v.inodes[inode], k);
  }

  lemma SameBehind(s: seq<byte>, t: seq<byte>, a: nat, n: nat)
    requires |s| == |t| >= a + n && a >= 4096 && s[4096..] == t[4096..]
    ensures s[a..a + n] == t[a..a + n]
  {
    Inner(s, 4096, s[4096..], a - 4096, n);
    Inner(t, 4096, t[4096..], a - 4096, n);
  }

  /** What an inode says, at any place. */
  lemma InodeSays(img: seq<byte>, a: nat, n: Inode, k: nat)
    requires EncodableInode(n) && k < 1023 && a + 4096 <= |img| && img[a..a + 4096] == InodeBlock(n)
    ensures I32(img, a) == n.length && I32(img, a + 4 + 4 * k) == n.blocks[k]
  {
    InodeWords(n, k);
    Inner(img, a, InodeBlock(n), 0, 4);
    Inner(img, a, InodeBlock(n), 4 + 4 * k, 4);
    WordIff(img, a, n.length);
    WordIff(img, a + 4 + 4 * k, n.blocks[k]);
  }

  lemma BootDecodes(img: seq<byte>, v: Volume)
    requires Encodable(v) && |img| >= 4096 && WritesOut(img, v)
    ensures I32(img, 0) == v.dirCount && I32(img, 4) == |v.inodes| && I32(img, 8) == |v.data| / 4096
  {
    BootPlaces(v);
    var front := img[..12];
    assert front[0..4] == Word(v.dirCount) && front[4..8] == Word(|v.inodes|) && front[8..12] == Word(|v.data| / 4096);
    assert img[0..12] == front;
    Inner(img, 0, front, 0, 4);
    Inner(img, 0, front, 4, 4);
    Inner(img, 0, front, 8, 4);
    WordIff(img, 0, v.dirCount);
    WordIff(img, 4, |v.inodes|);
    WordIff(img, 8, |v.data| / 4096);
  }

  lemma WrittenDecodes(img: seq<byte>, v: Volume)
    requires Encodable(v) && |img| >= 4096 && WritesOut(img, v) && NamesEnd(img)
    ensures Decodes(img, v)
  {
    BootDecodes(img, v);
    forall i | 0 <= i < NUMDIR ensures DecodesEntry(img, v, i) {
      EntryDecodes(img, v, i);
    }
    forall inode, k | 0 <= inode < |v.inodes| && 0 <= k < DATB_SIZE ensures DecodesInode(img, v, inode, k) {
      InodeDecodes(img, v, inode, k);
    }
    var d := 4096 * |v.inodes|;
    assert img[4096 + d..] == img[4096..][d..] == Image(v)[4096..][d..] == Image(v)[4096 + d..];
    ConcatSize(Inodes(v), 4096);
    assert Image(v)[4096 + d..] == v.data;
  }

  // ---------- and nothing else is ----------

  lemma DecodedEntry(img: seq<byte>, v: Volume, i: nat)
    requires Decodes(img, v) && i < 63
    ensures IsWord(v.entries[i].filetype) && IsWord(v.entries[i].inodeNum)
    ensures img[64 + 64 * i..64 + 64 * i + 40] == EntryFields(v.entries[i]) && NameEnds(img, 64 + 64 * i)
  {
    assert DecodesEntry(img, v, i);
    EntryIsAt(img, v, i);
    EntryAtIff(img, 64 + 64 * i, v.entries[i]);
  }

  lemma DecodedWords(img: seq<byte>, v: Volume, inode: nat, k: nat)
    requires Decodes(img, v) && inode < |v.inodes| && k < 1023
    ensures IsWord(v.inodes[inode].length) && IsWord(v.inodes[inode].blocks[k])
    ensures img[4096 + 4096 * inode..4096 + 4096 * inode + 4] == Word(v.inodes[inode].length)
    ensures var a := 4096 + 4096 * inode + 4 + 4 * k; img[a..a + 4] == Word(v.inodes[inode].blocks[k])
  {
    assert DecodesInode(img, v, inode, k);
    WordIff(img, 4096 + 4096 * inode, v.inodes[inode].length);
    WordIff(img, 4096 + 4096 * inode + 4 + 4 * k, v.inodes[inode].blocks[k]);
  }

  lemma DecodedInode(img: seq<byte>, v: Volume, inode: nat)
    requires Decodes(img, v) && inode < |v.inodes|
    ensures 4096 + 4096 * inode + 4096 <= |img| && EncodableInode(v.inodes[inode])
    ensures img[4096 + 4096 * inode..4096 + 4096 * inode + 4096] == InodeBlock(v.inodes[inode])
  {
    var a, n := 4096 + 4096 * inode, v.inodes[inode];
    Within(4096, inode, |v.inodes|);
    forall k: nat | k < 1023
      ensures IsWord(n.length) && IsWord(n.blocks[k]) && img[a..a + 4] == Word(n.length)
      ensures img[a + 4 + 4 * k..a + 4 + 4 * k + 4] == Word(n.blocks[k])
    {
      DecodedWords(img, v, inode, k);
    }
    assert EncodableInode(n) && img[a..a + 4] == Word(n.length) by {
      DecodedWords(img, v, inode, 0);
    }
    var list := img[a + 4..a + 4096];
    forall k | 0 <= k < 1023 ensures list[4 * k..4 * k + 4] == BlockList(n)[k] {
      assert list[4 * k..4 * k + 4] == img[a + 4 + 4 * k..a + 4 + 4 * k + 4];
    }
    PiecesDetermine(BlockList(n), 4, list);
    assert img[a..a + 4096] == img[a..a + 4] + list;
  }

  lemma DecodedIsEncodable(img: seq<byte>, v: Volume)
    requires Decodes(img, v)
    ensures Encodable(v)
  {
    WordIff(img, 0, 0);
    forall i | 0 <= i < 63 ensures IsWord(v.entries[i].filetype) && IsWord(v.entries[i].inodeNum) {
      DecodedEntry(img, v, i);
    }
    forall i | 0 <= i < |v.inodes| ensures EncodableInode(v.inodes[i]) {
      DecodedInode(img, v, i);
    }
  }

  lemma TailSplits(s: seq<byte>, a: nat, n: nat)
    requires a + n <= |s|
    ensures s[a..] == s[a..a + n] + s[a + n..]
  {
  }

  lemma DecodedInodes(img: seq<byte>, v: Volume)
    requires Decodes(img, v) && Encodable(v)
    ensures 4096 + 4096 * |v.inodes| <= |img| && img[4096..4096 + 4096 * |v.inodes|] == Concat(Inodes(v))
  {
    var nodes := img[4096..4096 + 4096 * |v.inodes|];
    forall k | 0 <= k < |v.inodes|
      ensures 0 <= 4096 * k <= 4096 * k + 4096 <= |nodes| && nodes[4096 * k..4096 * k + 4096] == Inodes(v)[k]
    {
      Within(4096, k, |v.inodes|);
      DecodedInode(img, v, k);
      Inner(img, 4096, nodes, 4096 * k, 4096);
    }
    PiecesDetermine(Inodes(v), 4096, nodes);
  }

  lemma DecodedBehindBoot(img: seq<byte>, v: Volume)
    requires Decodes(img, v) && Encodable(v)
    ensures |img| == |Image(v)| && img[4096..] == Image(v)[4096..]
  {
    DecodedInodes(img, v);
    TailSplits(img, 4096, 4096 * |v.inodes|);
    ImageBehindBoot(v);
  }

  lemma ImageBehindBoot(v: Volume)
    requires Encodable(v)
    ensures Image(v)[4096..] == Concat(Inodes(v)) + v.data
  {
    ConcatSize(Inodes(v), 4096);
    var boot, rest := BootBlock(v), Concat(Inodes(v)) + v.data;
    assert Image(v) == boot + rest;
  }

  lemma DecodedBoot(img: seq<byte>, v: Volume)
    requires Decodes(img, v) && Encodable(v)
    ensures img[..12] == Image(v)[..12]
  {
    BootPlaces(v);
    WordIff(img, 0, v.dirCount);
    WordIff(img, 4, |v.inodes|);
    WordIff(img, 8, |v.data| / 4096);
    assert img[..12] == img[0..4] + img[4..8] + img[8..12];
    assert Image(v)[..12] == Image(v)[0..4] + Image(v)[4..8] + Image(v)[8..12];
  }

  lemma DecodedIsWritten(img: seq<byte>, v: Volume)
    requires Decodes(img, v)
    ensures Encodable(v) && WritesOut(img, v) && NamesEnd(img)
  {
    DecodedIsEncodable(img, v);
    DecodedBehindBoot(img, v);
    DecodedBoot(img, v);
    forall i | 0 <= i < 63
      ensures SameFields(img, Image(v), 64 + 64 * i) && NameEnds(img, 64 + 64 * i)
    {
      DecodedEntry(img, v, i);
      FieldsPlace(v, i);
    }
  }

  /** An image describes a volume exactly if it is the volume written out from front to back, whatever is
      in the unused bytes of the boot block, as long as every name ends within its entry. */
  lemma DecodesIff(img: seq<byte>, v: Volume)
    requires |img| >= 4096
    ensures Decodes(img, v) <==> Encodable(v) && WritesOut(img, v) && NamesEnd(img)
  {
    if Decodes(img, v) {
      DecodedIsWritten(img, v);
    }
    if Encodable(v) && WritesOut(img, v) && NamesEnd(img) {
      WrittenDecodes(img, v);
    }
  }

  /** Every volume that can be written out is read back from what is written. */
  lemma ImageDecodes(v: Volume)
    requires Encodable(v)
    ensures Decodes(Image(v), v)
  {
    forall i | 0 <= i < 63 ensures NameEnds(Image(v), 64 + 64 * i) {
      EntryPlace(v, i);
      assert EntryBlock(v.entries[i])[63] == NUL;
    }
    WrittenDecodes(Image(v), v);
  }

  /** No image describes two volumes. */
  lemma DecodesOnce(img: seq<byte>, v: Volume, w: Volume)
    requires Decodes(img, v) && Decodes(img, w)
    ensures v == w
  {
    forall i | 0 <= i < NUMDIR ensures v.entries[i] == w.entries[i] {
      assert DecodesEntry(img, v, i) && DecodesEntry(img, w, i);
    }
    forall inode | 0 <= inode < |v.inodes| ensures v.inodes[inode] == w.inodes[inode] {
      assert DecodesInode(img, v, inode, 0) && DecodesInode(img, w, inode, 0);
      forall k | 0 <= k < DATB_SIZE ensures v.inodes[inode].blocks[k] == w.inodes[inode].blocks[k] {
        assert DecodesInode(img, v, inode, k) && DecodesInode(img, w, inode, k);
      }
    }
  }
}
