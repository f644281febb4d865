/**
  The fixed addresses at which the kernel keeps what belongs to one process: its PCB, its
  kernel stack and its 4 MB user page.
 */
module Layout {
  const TOP_OF_KERNEL: nat := 0x80_0000
  const KB8: nat := 0x2000
  const EIGHTMB: nat := 0x80_0000
  const FOURMB: nat := 0x40_0000
  const PAGES_SIZE: nat := 4096
  // F_MB4_PG | F_W_E | F_PRESENT | F_USR
  const USER_PAGE_FLAGS: nat := 0x87

  /** A saved (esp, ebp) pair: a place in the kernel where a computation can be continued. */
  datatype Ctx = Ctx(esp: nat, ebp: nat)

  function GetPcbAddr(pid: nat): int {
    TOP_OF_KERNEL - KB8 * (pid + 1)
  }

  function GetEsp0(pid: nat): int {
    TOP_OF_KERNEL - KB8 * pid - 4
  }

  /** The page-directory entry that maps the user window to the 4 MB page of pid; its low 22 bits are
      the flags, so or-ing them in is adding them. */
  function UserEntry(pid: nat): nat {
    UserPage(pid) + USER_PAGE_FLAGS
  }

  /** Where the 4 MB page of pid is in memory. */
  function UserPage(pid: nat): nat {
    EIGHTMB + FOURMB * pid
  }

  /** The flags of an entry are its 12 lowest bits. */
  function Flags(entry: nat): (flags: nat)
    ensures flags < 0x1000
  {
    entry % 0x1000
  }

  /** What the processor asks of an entry before it lets a program write to the page: that the page is
      present, writable, and open to user programs. */
  predicate Accessible(entry: nat) {
    Flags(entry) % 2 == 1 && Flags(entry) / 2 % 2 == 1 && Flags(entry) / 4 % 2 == 1
  }

  /** The bit that makes an entry of the page directory a page of 4 MB. */
  predicate Large(entry: nat) {
    Flags(entry) / 0x80 % 2 == 1
  }

  /** No other flag is set, and the address is one of a 4 MB page. */
  predicate Plain(entry: nat) {
    entry % 0x40_0000 < 0x100 && Flags(entry) / 8 % 16 == 0
  }

  /** Only one entry maps the page of pid, counted in pages of 4 MB, as programs need it. */
  lemma UserEntryMaps(entry: nat, pid: nat)
    ensures UserPage(pid) == 0x40_0000 * (pid + 2)
    ensures entry == UserEntry(pid) <==>
              entry / 0x40_0000 == pid + 2 && Accessible(entry) && Large(entry) && Plain(entry)
  {
    assert UserEntry(pid) == 0x40_0000 * (pid + 2) + 0x87;
    LowFlags(UserEntry(pid));
    LowFlags(entry);
    OnlyFlags(Flags(entry));
  }

  lemma LowFlags(entry: nat)
    ensures entry % 0x40_0000 < 0x1000 ==> Flags(entry) == entry % 0x40_0000
  {
    var low := entry % 0x40_0000;
    assert entry == 0x1000 * (0x400 * (entry / 0x40_0000)) + low;
  }

  lemma OnlyFlags(low: nat)
    requires low < 0x1000
    ensures low == 0x87 <==>
              low < 0x100 &&
              low % 2 == 1 && low / 2 % 2 == 1 && low / 4 % 2 == 1 && low / 8 % 16 == 0 && low / 0x80 % 2 == 1
  {
  }

  /** The 8 KB block of kernel memory that starts with the PCB of pid and holds its stack. */
  predicate InBlock(address: int, pid: nat) {
    GetPcbAddr(pid) <= address < GetPcbAddr(pid) + KB8
  }

  predicate OnStack(c: Ctx, pid: nat) {
    InBlock(c.esp, pid)
  }

  /** The processor pushes downwards from esp0: the stack has the block of its process below it, and
      starts at its last word. */
  lemma StackFillsBlock(pid: nat, address: int)
    ensures InBlock(address, pid) <==> GetEsp0(pid) + 4 - 0x2000 <= address < GetEsp0(pid) + 4
    ensures InBlock(address, pid) <==> address < 0x80_0000 && (0x7F_FFFF - address) / 0x2000 == pid
  {
  }

  /** Blocks of different processes do not meet, the stack the processor switches to takes the block of
      its own process from the top, and no two processes share a user page. */
  lemma ProcessesAreApart(p: nat, q: nat, address: int)
    requires InBlock(address, p)
    ensures InBlock(address, q) <==> p == q
    ensures GetEsp0(p) + 4 - 0x2000 <= address < GetEsp0(p) + 4
    ensures InBlock(GetEsp0(p), q) <==> p == q
    ensures GetEsp0(p) == GetEsp0(q) <==> p == q
    ensures UserEntry(p) == UserEntry(q) <==> p == q
  {
    if p < q {
      assert GetPcbAddr(q) + KB8 <= GetPcbAddr(p);
    } else if q < p {
      assert GetPcbAddr(p) + KB8 <= GetPcbAddr(q);
    }
  }
}
