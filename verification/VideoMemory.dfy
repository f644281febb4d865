/**
  Physical memory holding one page of text per terminal, and the page table through which each
  terminal reaches its page: the terminal in view is mapped to the video page, every other one to
  a buffer page of its own.
 */
module VideoMemory {
  import opened Common
  import opened Layout
  import opened Screen

  const VIDEO: nat := 0xB_8000
  const MEM_32: nat := 0x200_0000
  const PTABLE_ENT: nat := 1024
  // F_W_E | F_PRESENT | F_USR
  const PAGE_FLAGS: nat := 7

  /** The page a page-table entry maps to. */
  function FrameOf(entry: uint32): nat {
    entry - entry % PAGES_SIZE
  }

  function BufferFrame(term: nat): nat {
    MEM_32 + term * PAGES_SIZE
  }

  /** The characters and attributes in the visible part of a page. */
  function Cells(page: seq<byte>): (cells: seq<Cell>)
    requires |page| == PAGES_SIZE
    ensures |cells| == CELLS
  {
    seq(CELLS, i requires 0 <= i < CELLS => Cell(page[2 * i], page[2 * i + 1]))
  }

  lemma CellsUpdate(page: seq<byte>, i: nat, cell: Cell)
    requires |page| == PAGES_SIZE && i < CELLS
    ensures Cells(page[2 * i := cell.ch][2 * i + 1 := cell.attr]) == Cells(page)[i := cell]
  {
  }

  class VideoMemory {
    const phys: array<byte>
    const pageTable: array<uint32>   // page_tab_array_video
    var viewing: nat                 // viewing_term

    ghost predicate Shaped()
      reads pageTable
    {
      && phys.Length == BufferFrame(NUM_TERM)
      && pageTable.Length == PTABLE_ENT
      && (forall t :: 0 <= t < NUM_TERM ==> FrameOf(pageTable[t]) + PAGES_SIZE <= phys.Length)
      && (forall t :: 0 <= t < NUM_TERM ==> Accessible(pageTable[t]))
    }

    /** The terminal in view, and only it, is mapped to the video page; the others each to their own
        buffer. */
    ghost predicate Valid()
      reads this, pageTable
    {
      && Shaped() && viewing < NUM_TERM
      && (forall t :: 0 <= t < NUM_TERM ==>
            FrameOf(pageTable[t]) == if t == viewing then VIDEO else BufferFrame(t))
    }

    ghost function PageAt(frame: nat): (page: seq<byte>)
      requires frame + PAGES_SIZE <= phys.Length
      reads phys
      ensures |page| == PAGES_SIZE
    {
      phys[frame..frame + PAGES_SIZE]
    }

    /** The page terminal t reads and writes. */
    ghost function Page(t: nat): (page: seq<byte>)
      requires Shaped() && t < NUM_TERM
      reads this, pageTable, phys
      ensures |page| == PAGES_SIZE
    {
      PageAt(FrameOf(pageTable[t]))
    }

    constructor (phys: array<byte>, pageTable: array<uint32>)
      requires phys.Length == BufferFrame(NUM_TERM) && pageTable.Length == PTABLE_ENT
      modifies pageTable
      ensures this.phys == phys && this.pageTable == pageTable && viewing == 0 && Valid()
    {
      this.phys := phys;
      this.pageTable := pageTable;
      viewing := 0;
      new;
      var term := 0;
      while term < NUM_TERM
        invariant 0 <= term <= NUM_TERM && viewing == 0
        invariant forall t :: 0 <= t < term ==> Accessible(pageTable[t])
        invariant forall t :: 0 <= t < term ==>
                    FrameOf(pageTable[t]) == if t == 0 then VIDEO else BufferFrame(t)
      {
        if term == 0 {
          MapTermToVid(term);
        } else {
          MapTermToBuf(term);
        }
        term := term + 1;
      }
      forall t | 0 <= t < NUM_TERM ensures FrameOf(pageTable[t]) + PAGES_SIZE <= phys.Length {
        FramesApart(t, NUM_TERM);
      }
    }

    method MapTermToBuf(term: nat)
      requires term < NUM_TERM && pageTable.Length == PTABLE_ENT
      modifies pageTable
      ensures pageTable[..] == old(pageTable[..])[term := pageTable[term]]
      ensures FrameOf(pageTable[term]) == BufferFrame(term) && Accessible(pageTable[term])
    {
      pageTable[term] := MEM_32 + term * PAGES_SIZE + PAGE_FLAGS;
    }

    method MapTermToVid(term: nat)
      requires term < NUM_TERM && pageTable.Length == PTABLE_ENT
      modifies pageTable
      ensures pageTable[..] == old(pageTable[..])[term := pageTable[term]]
      ensures FrameOf(pageTable[term]) == VIDEO && Accessible(pageTable[term])
    {
      pageTable[term] := VIDEO + PAGE_FLAGS;
    }

    /** memcpy of a whole page to another. */
    method CopyPage(to: nat, from: nat)
      requires to + PAGES_SIZE <= phys.Length && from + PAGES_SIZE <= phys.Length
      requires to + PAGES_SIZE <= from || from + PAGES_SIZE <= to
      modifies phys
      ensures phys[..] == Splice(old(phys[..]), to, old(phys[from..from + PAGES_SIZE]))
    {
      ghost var page := phys[from..from + PAGES_SIZE];
      var n := 0;
      while n < PAGES_SIZE
        invariant 0 <= n <= PAGES_SIZE
        invariant phys[from..from + PAGES_SIZE] == page
        invariant phys[to..to + n] == page[..n]
        invariant forall k :: 0 <= k < phys.Length && !(to <= k < to + n) ==> phys[k] == old(phys[k])
      {
        assert phys[from + n] == page[n];
        phys[to + n] := phys[from + n];
        assert phys[to..to + n + 1] == phys[to..to + n] + [phys[to + n]];
        n := n + 1;
      }
      SpliceIff(old(phys[..]), to, page, phys[..]);
    }

    /** Stores a character and its attribute through the mapping of a terminal. */
    method SetCell(term: nat, index: nat, ch: byte, attr: byte)
      requires Valid() && term < NUM_TERM && index < CELLS
      modifies phys
      ensures Valid()
      ensures Page(term) == old(Page(term))[2 * index := ch][2 * index + 1 := attr]
      ensures Cells(Page(term)) == old(Cells(Page(term)))[index := Cell(ch, attr)]
      ensures forall u :: 0 <= u < NUM_TERM && u != term ==> Page(u) == old(Page(u))
    {
      var base := FrameOf(pageTable[term]);
      phys[base + 2 * index] := ch;
      phys[base + 2 * index + 1] := attr;
      CellsUpdate(old(Page(term)), index, Cell(ch, attr));
      forall u | 0 <= u < NUM_TERM && u != term ensures Page(u) == old(Page(u)) {
        FramesApart(u, term);
        FramesApart(term, u);
      }
    }

    method GetCell(term: nat, index: nat) returns (cell: Cell)
      requires Valid() && term < NUM_TERM && index < CELLS
      ensures cell == Cells(Page(term))[index]
    {
      var base := FrameOf(pageTable[term]);
      cell := Cell(phys[base + 2 * index], phys[base + 2 * index + 1]);
    }

    /** Every terminal is mapped to its buffer. */
    ghost predicate AllBuffered()
      reads pageTable
    {
      Shaped() && forall t :: 0 <= t < NUM_TERM ==> FrameOf(pageTable[t]) == BufferFrame(t)
    }

    method SaveView(cur: nat)
      requires Valid() && cur == viewing
      modifies pageTable, phys
      ensures AllBuffered()
      ensures forall t :: 0 <= t < NUM_TERM ==> Page(t) == old(Page(t))
    {
      FramesApart(cur, NUM_TERM);
      ghost var a := phys[..];
      MapTermToBuf(cur);
      assert AllBuffered();
      CopyPage(FrameOf(pageTable[cur]), VIDEO);
      ghost var b := phys[..];
      forall t | 0 <= t < NUM_TERM ensures Page(t) == old(Page(t)) {
        PageSaved(a, b, cur, t);
        assert Page(t) == PageIn(b, BufferFrame(t));
      }
    }

    method LoadView(dest: nat)
      requires AllBuffered() && dest < NUM_TERM
      modifies this, pageTable, phys
      ensures Valid() && viewing == dest
      ensures forall t :: 0 <= t < NUM_TERM ==> Page(t) == old(Page(t))
    {
      FramesApart(dest, NUM_TERM);
      ghost var a := phys[..];
      CopyPage(VIDEO, FrameOf(pageTable[dest]));
      MapTermToVid(dest);
      viewing := dest;
      ghost var b := phys[..];
      forall t | 0 <= t < NUM_TERM ensures Page(t) == old(Page(t)) {
        PageLoaded(a, b, dest, t);
        assert Page(t) == PageIn(b, if t == dest then VIDEO else BufferFrame(t));
        assert old(Page(t)) == PageIn(a, BufferFrame(t));
      }
    }

    /** The part of terminal_switch that moves the pages and the mapping: every terminal keeps its
        screen, and the destination's is now the one on display. */
    method SwitchPages(cur: nat, dest: nat)
      requires Valid() && cur == viewing && dest < NUM_TERM && dest != cur
      modifies this, pageTable, phys
      ensures Valid() && viewing == dest
      ensures forall t :: 0 <= t < NUM_TERM ==> Page(t) == old(Page(t))
      ensures PageAt(VIDEO) == old(Page(dest))
    {
      SaveView(cur);
      LoadView(dest);
    }
  }

  function PageIn(memory: seq<byte>, frame: nat): seq<byte>
    requires frame + PAGES_SIZE <= |memory|
  {
    memory[frame..frame + PAGES_SIZE]
  }

  /** The frames of two terminals do not overlap. */
  lemma FramesApart(t: nat, u: nat)
    ensures t < u ==> BufferFrame(t) + PAGES_SIZE <= BufferFrame(u)
    ensures VIDEO + PAGES_SIZE <= BufferFrame(t) == 0x200_0000 + 0x1000 * t
  {
  }

  lemma PageSaved(a: seq<byte>, b: seq<byte>, cur: nat, t: nat)
    requires cur < NUM_TERM && t < NUM_TERM && |a| == BufferFrame(NUM_TERM)
    requires BufferFrame(cur) + PAGES_SIZE <= |a| && b == Splice(a, BufferFrame(cur), PageIn(a, VIDEO))
    ensures BufferFrame(t) + PAGES_SIZE <= |a|
    ensures PageIn(b, BufferFrame(t)) == PageIn(a, if t == cur then VIDEO else BufferFrame(t))
  {
    FramesApart(t, cur);
    FramesApart(cur, t);
    FramesApart(t, NUM_TERM);
    SpliceIff(a, BufferFrame(cur), PageIn(a, VIDEO), b);
  }

  lemma PageLoaded(a: seq<byte>, b: seq<byte>, dest: nat, t: nat)
    requires dest < NUM_TERM && t < NUM_TERM && |a| == BufferFrame(NUM_TERM)
    requires BufferFrame(dest) + PAGES_SIZE <= |a| && b == Splice(a, VIDEO, PageIn(a, BufferFrame(dest)))
    ensures BufferFrame(t) + PAGES_SIZE <= |a|
    ensures PageIn(b, if t == dest then VIDEO else BufferFrame(t)) == PageIn(a, BufferFrame(t))
  {
    FramesApart(t, NUM_TERM);
    SpliceIff(a, VIDEO, PageIn(a, BufferFrame(dest)), b);
  }

  /** The buffer pages of the terminals lie behind the pages of the programs exactly if at most six
      programs can run; the page of a seventh would start where the buffers do. */
  lemma ProgramsAvoidBuffersIff()
    ensures (forall pid: nat, t: nat :: pid < MAX_NUM_PROC && t < NUM_TERM ==>
               || UserPage(pid) + FOURMB <= BufferFrame(t)
               || BufferFrame(t) + PAGES_SIZE <= UserPage(pid))
            <==> MAX_NUM_PROC <= 6
  {
    assert UserPage(6) == BufferFrame(0);
  }
}
