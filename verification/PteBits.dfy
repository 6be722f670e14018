/**
  The bits of page-table entries on the two architectures (hal/riscv/arch.h and
  hal/loongarch/arch.h): what vm.c stores for a table or a mapped page, and what it reads back.
*/
module PteBits {
  import opened PageTree

  const V: bv64 := 1

  // ---- RISC-V ----

  const RV_R: bv64 := 2
  const RV_W: bv64 := 4
  const RV_X: bv64 := 8
  const RV_U: bv64 := 16

  // ---- LoongArch ----

  const LA_D: bv64 := 0x2
  const LA_U: bv64 := 0xC         // PLV3
  const LA_MAT: bv64 := 0x10
  const LA_G: bv64 := 0x40
  const LA_P: bv64 := 0x80
  const LA_HW_W: bv64 := 0x100
  const LA_R: bv64 := 0x200       // software request bit
  const LA_X: bv64 := 0x400       // software request bit
  const LA_NR: bv64 := 0x2000_0000_0000_0000
  const LA_NX: bv64 := 0x4000_0000_0000_0000
  const LA_W: bv64 := 0x102       // LA_D | LA_HW_W
  const LA_PA: bv64 := 0x00FF_FFFF_FFFF_F000

  // ---- What vm.c uses ----

  function Pa2Pte(a: Arch, pa: bv64): bv64 {
    match a case RiscV => (pa >> 12) << 10 case LoongArch => pa & LA_PA
  }

  function Pte2Pa(a: Arch, pte: bv64): bv64 {
    match a case RiscV => (pte >> 10) << 12 case LoongArch => pte & LA_PA
  }

  function EncodePerm(a: Arch, perm: bv64): bv64 {
    match a
    case RiscV => perm
    case LoongArch =>
      (perm & (LA_W | LA_U | LA_G)) | (if perm & LA_R == 0 then LA_NR else 0) | (if perm & LA_X == 0 then LA_NX else 0)
  }

  /** PTE_FLAGS(pte). */
  function Flags(a: Arch, pte: bv64): bv64 {
    match a
    case RiscV => pte & 0x3FF
    case LoongArch =>
      (pte & (LA_W | LA_U | LA_G)) | (if pte & LA_NR == 0 then LA_R else 0) | (if pte & LA_NX == 0 then LA_X else 0)
  }

  predicate IsLeaf(a: Arch, pte: bv64) {
    match a case RiscV => pte & (RV_R | RV_W | RV_X) != 0 case LoongArch => pte & LA_P != 0
  }

  function ValidCache(a: Arch): bv64 {
    match a case RiscV => V case LoongArch => V | LA_MAT | LA_P
  }

  /** The entry walk() stores for a new table page, and mappages() for a mapped page. */
  function TablePte(a: Arch, pa: bv64): bv64 {
    Pa2Pte(a, pa) | V
  }

  function LeafPte(a: Arch, pa: bv64, perm: bv64): bv64 {
    Pa2Pte(a, pa) | EncodePerm(a, perm) | ValidCache(a)
  }

  /** Page-aligned physical addresses that fit the entry. */
  predicate PageAddress(pa: bv64) {
    pa & LA_PA == pa
  }

  /** Permission words that callers of mappages() may pass. */
  predicate PermWord(a: Arch, perm: bv64) {
    match a
    case RiscV => perm & 0x3FF == perm
    case LoongArch => perm & (LA_W | LA_U | LA_G | LA_R | LA_X) == perm
  }

  // ---- Properties ----

  /** A table entry is valid, not a leaf, and leads back to its page. */
  lemma TableEntryReads(a: Arch, pa: bv64)
    requires PageAddress(pa)
    ensures var e := TablePte(a, pa); e & V != 0 && !IsLeaf(a, e) && Pte2Pa(a, e) == pa
  {
    hide TablePte, IsLeaf, Pte2Pa, PageAddress;
    TableValid(a, pa);
    TableNoLeaf(a, pa);
    TableBack(a, pa);
  }

  lemma TableValid(a: Arch, pa: bv64)
    ensures TablePte(a, pa) & V != 0
  {}

  lemma TableNoLeaf(a: Arch, pa: bv64)
    requires PageAddress(pa)
    ensures !IsLeaf(a, TablePte(a, pa))
  {
    match a case RiscV => case LoongArch =>
  }

  lemma TableBack(a: Arch, pa: bv64)
    requires PageAddress(pa)
    ensures Pte2Pa(a, TablePte(a, pa)) == pa
  {
    match a case RiscV => case LoongArch =>
  }

  /** A leaf entry is valid and leads back to its page whatever its permissions. */
  lemma LeafEntryReads(a: Arch, pa: bv64, perm: bv64)
    requires PageAddress(pa) && PermWord(a, perm)
    ensures var e := LeafPte(a, pa, perm); e & V != 0 && Pte2Pa(a, e) == pa
  {
    hide LeafPte, Pte2Pa, PageAddress, PermWord;
    LeafValid(a, pa, perm);
    LeafBack(a, pa, perm);
  }

  lemma LeafValid(a: Arch, pa: bv64, perm: bv64)
    ensures LeafPte(a, pa, perm) & V != 0
  {
    match a case RiscV => case LoongArch =>
  }

  lemma LeafBack(a: Arch, pa: bv64, perm: bv64)
    requires PageAddress(pa) && PermWord(a, perm)
    ensures Pte2Pa(a, LeafPte(a, pa, perm)) == pa
  {
    match a case RiscV => case LoongArch =>
  }

  /** freewalk() recognises leaves: always on LoongArch, on RISC-V if some access is allowed. */
  lemma LeafRecognised(a: Arch, pa: bv64, perm: bv64)
    requires PageAddress(pa) && PermWord(a, perm)
    ensures IsLeaf(a, LeafPte(a, pa, perm)) <==> a == LoongArch || perm & (RV_R | RV_W | RV_X) != 0
  {
    match a case RiscV => case LoongArch =>
  }

  /** The permissions read from a leaf are the ones mapped; RISC-V adds the valid bit. */
  lemma FlagsRoundTrip(a: Arch, pa: bv64, perm: bv64)
    requires PageAddress(pa) && PermWord(a, perm)
    ensures Flags(a, LeafPte(a, pa, perm)) == if a == RiscV then perm | V else perm
    ensures PermWord(a, Flags(a, LeafPte(a, pa, perm)))
  {
    match a case RiscV => case LoongArch =>
  }

  /** uvmcopy(): mapping a copy with the flags read from the original gives equal entries but for the page. */
  lemma CopyKeepsPermissions(a: Arch, pa: bv64, copy: bv64, perm: bv64)
    requires PageAddress(pa) && PageAddress(copy) && PermWord(a, perm)
    ensures var e := LeafPte(a, pa, perm);
            var e' := LeafPte(a, copy, Flags(a, e));
            && Pte2Pa(a, e') == copy && Flags(a, e') == Flags(a, e) && IsLeaf(a, e') == IsLeaf(a, e)
            && e' == LeafPte(a, copy, perm)
  {
    hide LeafPte, Pte2Pa, Flags, IsLeaf, PageAddress, PermWord;
    FlagsRoundTrip(a, pa, perm);
    FlagsRoundTrip(a, copy, perm);
    LeafEntryReads(a, copy, perm);
    LeafRecognised(a, pa, perm);
    LeafRecognised(a, copy, perm);
    ValidTwice(a, copy, perm);
  }

  /** The valid bit among the flags changes nothing: every leaf has it. */
  lemma ValidTwice(a: Arch, pa: bv64, perm: bv64)
    ensures LeafPte(a, pa, if a == RiscV then perm | V else perm) == LeafPte(a, pa, perm)
  {
    hide Pa2Pte;
    match a
    case RiscV => OrAgain(Pa2Pte(RiscV, pa), perm);
    case LoongArch =>
  }

  lemma OrAgain(x: bv64, perm: bv64)
    ensures x | (perm | V) | V == x | perm | V
  {}

  /** The permission word vm.c passes for a set of accesses. */
  function Word(a: Arch, p: Perm): bv64 {
    match a
    case RiscV =>
      (if p.r then RV_R else 0) | (if p.w then RV_W else 0) | (if p.x then RV_X else 0) | (if p.u then RV_U else 0)
    case LoongArch =>
      (if p.r then LA_R else 0) | (if p.w then LA_W else 0) | (if p.x then LA_X else 0) | (if p.u then LA_U else 0)
  }

  function Accesses(a: Arch, flags: bv64): Perm {
    match a
    case RiscV => Perm(flags & RV_R != 0, flags & RV_W != 0, flags & RV_X != 0, flags & RV_U != 0)
    case LoongArch => Perm(flags & LA_R != 0, flags & LA_W != 0, flags & LA_X != 0, flags & LA_U != 0)
  }

  /** Both encodings represent exactly the accesses that were asked for. */
  lemma AccessesRoundTrip(a: Arch, pa: bv64, p: Perm)
    requires PageAddress(pa)
    ensures PermWord(a, Word(a, p)) && Accesses(a, Flags(a, LeafPte(a, pa, Word(a, p)))) == p
  {
    hide Flags, LeafPte, Word, Accesses, PermWord, PageAddress;
    RvWordReads(p);
    LaWordReads(p);
    FlagsRoundTrip(a, pa, Word(a, p));
  }

  lemma RvWordReads(p: Perm)
    ensures PermWord(RiscV, Word(RiscV, p)) && Accesses(RiscV, Word(RiscV, p) | V) == p
  {}

  lemma LaWordReads(p: Perm)
    ensures PermWord(LoongArch, Word(LoongArch, p)) && Accesses(LoongArch, Word(LoongArch, p)) == p
  {}
}
