/**
  The 4 MB pages of the processes.  A running program sees its own through the user window; what is
  stored behind the window lands on the pages of the terminals, which are not kept here.
 */
module UserMemory {
  import opened Common
  import opened FileSystem
  import opened Layout
  import opened Loader

  /** The part of a loaded file that is in the page of its program. */
  function InPage(content: seq<byte>): (part: seq<byte>)
    ensures |part| <= PAGE_ROOM && |part| <= |content|
    ensures |content| <= PAGE_ROOM ==> part == content
  {
    if |content| <= PAGE_ROOM then content else content[..PAGE_ROOM]
  }

  /** The page holds the image of a program at its place. */
  ghost predicate Holds(page: seq<byte>, image: seq<byte>) {
    && |page| == 0x40_0000 && 0x4_8000 + |image| <= 0x40_0000
    && page[0x4_8000..0x4_8000 + |image|] == image
  }

  lemma LoadedHolds(page: seq<byte>, image: seq<byte>)
    requires |page| == FOURMB && PROGRAM_OFFSET + |image| <= FOURMB
    ensures Holds(Splice(page, PROGRAM_OFFSET, image), image)
  {
  }

  /** What a load through the user window leaves in the page under it. */
  lemma PageUnderWindow(window: seq<byte>, content: seq<byte>)
    requires |window| == WINDOW && |content| <= ROOM
    ensures Splice(window, PROGRAM_OFFSET, content)[..FOURMB] ==
              Splice(window[..FOURMB], PROGRAM_OFFSET, InPage(content))
  {
  }

  /** The pages when the image of a program was stored in the page of pid, and nothing else. */
  ghost function PagesAfter(pages: seq<seq<byte>>, pid: nat, image: seq<byte>): seq<seq<byte>> {
    if pid < |pages| && PROGRAM_OFFSET + |image| <= |pages[pid]|
    then pages[pid := Splice(pages[pid], PROGRAM_OFFSET, image)] else pages
  }

  class UserMemory {
    const pages: array<seq<byte>>          // one a pid
    ghost var images: map<nat, seq<byte>>  // what the running programs were loaded from

    /** Every running program has in its page what was loaded for it. */
    ghost predicate Valid()
      reads this, pages
    {
      && pages.Length == MAX_NUM_PROC
      && (forall pid :: 0 <= pid < MAX_NUM_PROC ==> |pages[pid]| == FOURMB)
      && (forall pid :: pid in images ==> pid < MAX_NUM_PROC && Holds(pages[pid], images[pid]))
    }

    /** No program runs; the pages hold anything. */
    constructor (pages: array<seq<byte>>)
      requires pages.Length == MAX_NUM_PROC && forall pid :: 0 <= pid < MAX_NUM_PROC ==> |pages[pid]| == FOURMB
      ensures this.pages == pages && images == map[] && Valid()
    {
      this.pages := pages;
      images := map[];
    }

    /** Loads a program into the page of a free pid, which the user window shows. */
    method LoadInto(pid: nat, disk: Disk, inode: nat) returns (l: Loading)
      requires Valid() && pid < MAX_NUM_PROC && pid !in images
      requires disk.Valid() && inode < |disk.vol.inodes| && Readable(disk.vol, inode)
      modifies pages
      ensures Valid() && l == LoadingOf(disk.vol, inode)
      ensures pages[..] == old(pages[..])[pid := pages[pid]]
      ensures l.Done? ==>
        && FileOk(disk.vol, inode)
        && pages[pid] == Splice(old(pages[pid]), PROGRAM_OFFSET, InPage(Content(disk.vol, inode)))
    {
      var page := pages[pid];
      var window := new byte[WINDOW](i requires 0 <= i => if i < FOURMB then page[i] else 0);
      ghost var before := window[..];
      assert before[..FOURMB] == page;
      l := Load(disk, inode, window);
      if l.Done? {
        PageUnderWindow(before, Content(disk.vol, inode));
      }
      assert unchanged(pages);
      pages[pid] := window[..FOURMB];
    }

    /** The program in the page of pid runs. */
    ghost method Enter(pid: nat, image: seq<byte>)
      requires Valid() && pid < MAX_NUM_PROC && Holds(pages[pid], image)
      modifies this
      ensures Valid() && images == old(images)[pid := image] && images.Keys == old(images.Keys) + {pid}
    {
      images := images[pid := image];
    }

    /** The program of pid has ended. */
    ghost method Leave(pid: nat)
      requires Valid()
      modifies this
      ensures Valid() && images == old(images) - {pid}
    {
      images := images - {pid};
    }
  }
}
