/** Address-space constants and the data types of the paging hardware (inc/mmu.h, inc/memlayout.h). */
module Layout {
  datatype Option<+T> = None | Some(value: T)

  const PGSIZE := 0x1000
  const PTSIZE := 0x400000
  const NPTENTRIES := 1024
  const UTOP := 0xEEC00000
  const UTEMP := PTSIZE
  const VGA_USER := UTEMP + PGSIZE
  const ULIM := 0xEF800000
  const ADDRESS_LIMIT := 0x1_0000_0000

  /** PDX(UTOP): the directory entries below it are the user half. */
  const USER_PDES := 955
  /** PDX(UVPT): the entry through which a directory maps itself. */
  const UVPT_PDX := 957
  /** Number of page numbers below UTOP. */
  const USER_PAGES := USER_PDES * NPTENTRIES

  /** PGNUM(VGA_PHYSADDR): the page holding the text screen. */
  const VGA_PAGE := 0xB8

  const NENV := 1024

  const E_BAD_ENV := -2
  const E_INVAL := -3
  const E_NO_MEM := -4
  const E_NO_FREE_ENV := -5
  const E_FAULT := -6
  const E_IPC_NOT_RECV := -7

  /** The low twelve bits of an entry, from PTE_P (0x001) up to the last of the three PTE_AVAIL bits (0x800). */
  datatype Flags = Flags(p: bool, w: bool, u: bool,
                         pwt: bool, pcd: bool, a: bool, d: bool, ps: bool, g: bool,
                         mapped: bool, avail1: bool, avail2: bool)

  const NO_FLAGS := Flags(false, false, false, false, false, false, false, false, false, false, false, false)
  const PWU := NO_FLAGS.(p := true, w := true, u := true)
  const PU := NO_FLAGS.(p := true, u := true)

  /** `f & ~PTE_SYSCALL == 0`: nothing but P, W, U and the AVAIL bits. */
  predicate OnlySyscallBits(f: Flags) {
    !f.pwt && !f.pcd && !f.a && !f.d && !f.ps && !f.g
  }

  /** `f & PTE_SYSCALL`. */
  function SyscallBits(f: Flags): Flags {
    f.(pwt := false, pcd := false, a := false, d := false, ps := false, g := false)
  }

  /** `f` includes every bit of `want`: `(f & want) == want`. */
  predicate Includes(f: Flags, want: Flags) {
    && (want.p ==> f.p) && (want.w ==> f.w) && (want.u ==> f.u)
    && (want.pwt ==> f.pwt) && (want.pcd ==> f.pcd) && (want.a ==> f.a)
    && (want.d ==> f.d) && (want.ps ==> f.ps) && (want.g ==> f.g)
    && (want.mapped ==> f.mapped) && (want.avail1 ==> f.avail1) && (want.avail2 ==> f.avail2)
  }

  function Bit(on: bool, bit: bv12): bv12 { if on then bit else 0 }

  /** The twelve bits as a number. */
  function Bits(f: Flags): bv12 {
    Bit(f.p, 0x001) | Bit(f.w, 0x002) | Bit(f.u, 0x004) | Bit(f.pwt, 0x008) | Bit(f.pcd, 0x010) | Bit(f.a, 0x020)
    | Bit(f.d, 0x040) | Bit(f.ps, 0x080) | Bit(f.g, 0x100) | Bit(f.mapped, 0x200) | Bit(f.avail1, 0x400)
    | Bit(f.avail2, 0x800)
  }

  lemma EachBit(f: Flags)
    ensures var b := Bits(f);
      && (b & 0x001 != 0 <==> f.p) && (b & 0x002 != 0 <==> f.w) && (b & 0x004 != 0 <==> f.u)
      && (b & 0x008 != 0 <==> f.pwt) && (b & 0x010 != 0 <==> f.pcd) && (b & 0x020 != 0 <==> f.a)
      && (b & 0x040 != 0 <==> f.d) && (b & 0x080 != 0 <==> f.ps) && (b & 0x100 != 0 <==> f.g)
      && (b & 0x200 != 0 <==> f.mapped) && (b & 0x400 != 0 <==> f.avail1) && (b & 0x800 != 0 <==> f.avail2)
  {
  }

  lemma BitByBit(b: bv12, w: bv12)
    ensures b & w == w <==>
      && (w & 0x001 != 0 ==> b & 0x001 != 0) && (w & 0x002 != 0 ==> b & 0x002 != 0)
      && (w & 0x004 != 0 ==> b & 0x004 != 0) && (w & 0x008 != 0 ==> b & 0x008 != 0)
      && (w & 0x010 != 0 ==> b & 0x010 != 0) && (w & 0x020 != 0 ==> b & 0x020 != 0)
      && (w & 0x040 != 0 ==> b & 0x040 != 0) && (w & 0x080 != 0 ==> b & 0x080 != 0)
      && (w & 0x100 != 0 ==> b & 0x100 != 0) && (w & 0x200 != 0 ==> b & 0x200 != 0)
      && (w & 0x400 != 0 ==> b & 0x400 != 0) && (w & 0x800 != 0 ==> b & 0x800 != 0)
  {
  }

  /** The flags are compared as the words are: PTE_SYSCALL is 0xE07, which leaves 0x1F8 of the twelve bits. */
  lemma FlagsAreBits(f: Flags, want: Flags)
    ensures OnlySyscallBits(f) <==> Bits(f) & 0x1F8 == 0
    ensures Bits(SyscallBits(f)) == Bits(f) & 0xE07
    ensures Includes(f, want) <==> Bits(f) & Bits(want) == Bits(want)
  {
    SyscallMask(f);
    EachBit(f);
    EachBit(want);
    BitByBit(Bits(f), Bits(want));
    hide Bits, OnlySyscallBits, SyscallBits;
  }

  lemma SyscallMask(f: Flags)
    ensures OnlySyscallBits(f) <==> Bits(f) & 0x1F8 == 0
    ensures Bits(SyscallBits(f)) == Bits(f) & 0xE07
  {
  }

  /** A 32-bit word of memory, cut where PTE_ADDR cuts it: a page number and twelve flag bits. */
  datatype Word = Word(addr: nat, flags: Flags)

  const ZERO := Word(0, NO_FLAGS)

  /** One physical page, as 1024 words. It may hold data, a page table or a page directory. */
  type Frame = f: seq<Word> | |f| == NPTENTRIES witness ZeroFrame()

  function ZeroFrame(): (f: seq<Word>)
    ensures |f| == NPTENTRIES
    ensures forall k :: 0 <= k < NPTENTRIES ==> f[k] == ZERO
  {
    seq(NPTENTRIES, _ => ZERO)
  }

  function PGNUM(va: nat): nat { va / PGSIZE }

  function PDX(va: nat): (i: nat)
    requires va < ADDRESS_LIMIT
    ensures i < NPTENTRIES
    ensures i < USER_PDES <==> va < UTOP
  {
    va / PTSIZE
  }

  function PTX(va: nat): (j: nat)
    ensures j < NPTENTRIES
  {
    va / PGSIZE % NPTENTRIES
  }

  /** ROUNDUP to a page in 32-bit arithmetic. */
  function RoundUp32(a: nat): nat { (a % ADDRESS_LIMIT + PGSIZE - 1) / PGSIZE * PGSIZE % ADDRESS_LIMIT }

  /** The page number split into directory and table index determines the page: distinct pages get distinct indexes. */
  lemma IndexesIdentifyPage(va: nat, wa: nat)
    requires va < ADDRESS_LIMIT && wa < ADDRESS_LIMIT
    ensures PDX(va) == PDX(wa) && PTX(va) == PTX(wa) <==> PGNUM(va) == PGNUM(wa)
    ensures PGNUM(va) == PDX(va) * NPTENTRIES + PTX(va)
  {
    assert va / PTSIZE == va / PGSIZE / NPTENTRIES;
    assert wa / PTSIZE == wa / PGSIZE / NPTENTRIES;
  }
}
