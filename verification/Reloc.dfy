/** reloc.c: copying an ARM function from ROM to RAM. Addresses and instructions are 32-bit words;
    shifts and masks are written as multiplications, divisions and remainders. */
module Reloc {

  type Word = w: nat | w < 0x1_0000_0000

  /** The value of a word in the 32-bit arithmetic of the source. */
  function Wrap(x: int): Word { x % 0x1_0000_0000 }

  /** The cast of a word to int32_t. */
  function Signed(w: Word): int { if w >= 0x8000_0000 then w - 0x1_0000_0000 else w }

  // ---- The instructions of the machine -----------------------------------------------------

  /** B and BL, whatever their condition. */
  predicate IsBranch(w: Word) { w / 0x100_0000 % 0x10 in {0xA, 0xB} }

  /** The signed 24-bit field of a branch. */
  function Jump(w: Word): (j: int)
    ensures -0x80_0000 <= j < 0x80_0000
  {
    var offset := w % 0x100_0000;
    if offset >= 0x80_0000 then offset - 0x100_0000 else offset
  }

  /** Where a branch at `pc` goes: the machine adds the field, in words, to the address plus 8. */
  function Target(pc: Word, w: Word): Word { Wrap(pc + 8 + 4 * Jump(w)) }

  /** A load or store with the program counter as its base. */
  predicate IsPcLoad(w: Word) { w / 0x400_0000 % 4 == 1 && w / 0x1_0000 % 0x10 == 15 }

  /** The address of such an access at `pc`, with an immediate offset. */
  function LoadAddress(pc: Word, w: Word): Word {
    Wrap(pc + 8 + if w / 0x80_0000 % 2 == 1 then w % 0x1000 else -(w % 0x1000))
  }

  /** B and BL as the ARM encodes them: condition, 101, the link bit, and 24 bits of signed offset in
      words, counted from two instructions behind. */
  lemma BranchEncoding(pc: Word, w: Word, cond: nat, link: nat, j: int)
    requires cond < 16 && link < 2 && -0x80_0000 <= j < 0x80_0000
    requires w == cond * 0x1000_0000 + 0xA00_0000 + link * 0x100_0000 + (if j < 0 then j + 0x100_0000 else j)
    ensures IsBranch(w) && Jump(w) == j && Target(pc, w) == (pc + 8 + 4 * j) % 0x1_0000_0000
  {
    var field := if j < 0 then j + 0x100_0000 else j;
    assert w / 0x100_0000 == cond * 16 + 10 + link && w % 0x100_0000 == field;
  }

  /** LDR Rd, [PC, #offset] with the offset added or subtracted. */
  lemma LoadEncoding(pc: Word, w: Word, cond: nat, up: bool, rd: nat, offset: nat)
    requires cond < 16 && rd < 16 && offset < 0x1000
    requires w == cond * 0x1000_0000 + (if up then 0x59F_0000 else 0x51F_0000) + rd * 0x1000 + offset
    ensures IsPcLoad(w) && !IsBranch(w) && LoadAddress(pc, w) == (if up then pc + 8 + offset else pc + 8 - offset) % 0x1_0000_0000
  {
    assert w % 0x1000 == offset;
    assert w / 0x1_0000 == cond * 0x1000 + if up then 0x59F else 0x51F;
    assert w / 0x80_0000 == cond * 32 + if up then 11 else 10;
    assert w / 0x400_0000 == cond * 4 + 1;
    assert w / 0x100_0000 == cond * 16 + 5;
  }

  // ---- The function that is copied ---------------------------------------------------------

  /** The bounds given to reloc; the copy of the word at `start` goes to `base + 16`. */
  datatype Region = Region(start: Word, end: Word, base: Word) {

    /** The bound itself is copied too. */
    function Count(): nat { if start <= end then (end - start) / 4 + 1 else 0 }

    ghost predicate Valid() {
      start % 4 == 0 && base % 4 == 0 && end + 4 < 0x1_0000_0000 && base + 16 + 4 * Count() <= 0x1_0000_0000
    }

    predicate Inside(addr: Word) { start <= addr < end }

    ghost function Old(i: nat): Word
      requires Valid() && i < Count()
    {
      start + 4 * i
    }

    ghost function New(i: nat): Word
      requires Valid() && i < Count()
    {
      base + 16 + 4 * i
    }
  }

  // ---- The words that are written ----------------------------------------------------------

  /** Where the loop finds that a branch goes: the offset is extended to 32 bits first. */
  function Destination(pc: Word, w: Word): Word {
    var offset := w % 0x100_0000;
    var extended := if offset / 0x80_0000 % 2 == 1 then offset + 0xFF00_0000 else offset;
    Wrap(pc + Wrap(extended * 4) + 8)
  }

  /** The jump from `newPc` to `dest` in words; the shift keeps the sign. */
  function NewJump(dest: Word, newPc: Word): int { Signed(Wrap(dest - newPc - 8)) / 4 }

  predicate Reaches(newJump: int) { !(newJump >= 0x80_0000 || newJump <= -0x80_0000) }

  function SetJump(w: Word, jump: int): Word { w - w % 0x100_0000 + jump % 0x100_0000 }

  function FixBranch(r: Region, w: Word, pc: Word, newPc: Word): Word {
    var dest := Destination(pc, w);
    if r.Inside(dest) then w
    else
      var newJump := NewJump(dest, newPc);
      if Reaches(newJump) then SetJump(w, newJump) else w
  }

  function FixLoad(w: Word, fixups: Word, newPc: Word): Word {
    var offset := Signed(Wrap(fixups - newPc - 8));
    var down := if offset < 0 then w - w / 0x80_0000 % 2 * 0x80_0000 else w;
    down - down % 0x1000 + (if offset < 0 then -offset else offset) % 0x1000
  }

  /** The access to the word at `pc` uses a literal outside of the function. */
  predicate FarLoad(r: Region, pc: Word, w: Word) {
    !IsBranch(w) && IsPcLoad(w) && !r.Inside(LoadAddress(pc, w))
  }

  /** The far literals among the first `k` words. */
  ghost function Slots(r: Region, mem: Word -> Word, k: nat): (n: nat)
    requires r.Valid() && k <= r.Count()
    ensures n <= k
  {
    if k == 0 then 0
    else Slots(r, mem, k - 1) + if FarLoad(r, r.Old(k - 1), mem(r.Old(k - 1))) then 1 else 0
  }

  /** Far literals have increasing numbers. */
  lemma {:induction false} SlotsGrow(r: Region, mem: Word -> Word, i: nat, k: nat)
    requires r.Valid() && i < k <= r.Count()
    ensures Slots(r, mem, i) <= Slots(r, mem, k)
    ensures FarLoad(r, r.Old(i), mem(r.Old(i))) ==> Slots(r, mem, i) < Slots(r, mem, k)
  {
    if i < k - 1 { SlotsGrow(r, mem, i, k - 1); }
  }

  /** Every literal number belongs to a word. */
  lemma {:induction false} SlotOwner(r: Region, mem: Word -> Word, s: nat, k: nat) returns (i: nat)
    requires r.Valid() && k <= r.Count() && s < Slots(r, mem, k)
    ensures i < k && FarLoad(r, r.Old(i), mem(r.Old(i))) && Slots(r, mem, i) == s
  {
    if s < Slots(r, mem, k - 1) { i := SlotOwner(r, mem, s, k - 1); } else { i := k - 1; }
  }

  /** The word written for word `i` of the function. */
  ghost function Copied(r: Region, mem: Word -> Word, i: nat): Word
    requires r.Valid() && i < r.Count()
  {
    var w := mem(r.Old(i));
    if IsBranch(w) then FixBranch(r, w, r.Old(i), r.New(i))
    else if FarLoad(r, r.Old(i), w) then FixLoad(w, r.base + 4 * Slots(r, mem, i), r.New(i))
    else w
  }

  /** What memory holds from `base` on after the first `k` words. The literals are put one after
      the other, from `base` on, with no regard to the code that starts at `base + 16`. */
  ghost predicate Written(r: Region, mem: Word -> Word, k: nat, was: seq<Word>, dst: seq<Word>)
    requires r.Valid() && k <= r.Count() && |was| == |dst| >= r.Count() + 4
  {
    && (forall i: nat | i < k && Slots(r, mem, k) <= i + 4 :: dst[i + 4] == Copied(r, mem, i))
    && (forall i: nat | i < k && FarLoad(r, r.Old(i), mem(r.Old(i))) ::
          Slots(r, mem, i) < k && dst[Slots(r, mem, i)] == mem(LoadAddress(r.Old(i), mem(r.Old(i)))))
    && (forall j: nat | j < |dst| && (Slots(r, mem, k) <= j < 4 || j >= k + 4) :: dst[j] == was[j])
  }

  lemma SlotsStep(r: Region, mem: Word -> Word, k: nat)
    requires r.Valid() && k < r.Count()
    ensures Slots(r, mem, k + 1) == Slots(r, mem, k) + if FarLoad(r, r.Old(k), mem(r.Old(k))) then 1 else 0
  {
  }

  /** Memory after word `k` has been treated. */
  ghost function Step(r: Region, mem: Word -> Word, k: nat, a: seq<Word>): (b: seq<Word>)
    requires r.Valid() && k < r.Count() && |a| >= r.Count() + 4
    ensures |b| == |a|
  {
    var w := mem(r.Old(k));
    if FarLoad(r, r.Old(k), w)
    then a[Slots(r, mem, k) := mem(LoadAddress(r.Old(k), w))][k + 4 := Copied(r, mem, k)]
    else a[k + 4 := Copied(r, mem, k)]
  }

  /** A step keeps what is known of the words before. */
  lemma WrittenStep(r: Region, mem: Word -> Word, k: nat, was: seq<Word>, a: seq<Word>)
    requires r.Valid() && k < r.Count() && |was| == |a| >= r.Count() + 4
    requires Written(r, mem, k, was, a)
    ensures Written(r, mem, k + 1, was, Step(r, mem, k, a))
  {
    hide Copied, FarLoad, LoadAddress, Slots;
    var b := Step(r, mem, k, a);
    SlotsStep(r, mem, k);
    forall i: nat | i < k + 1 && FarLoad(r, r.Old(i), mem(r.Old(i)))
      ensures Slots(r, mem, i) < k + 1 && b[Slots(r, mem, i)] == mem(LoadAddress(r.Old(i), mem(r.Old(i))))
    {
      if i < k { SlotsGrow(r, mem, i, k); }
    }
    forall i: nat | i < k + 1 && Slots(r, mem, k + 1) <= i + 4 ensures b[i + 4] == Copied(r, mem, i) {
    }
    forall j: nat | j < |b| && (Slots(r, mem, k + 1) <= j < 4 || j >= k + 5) ensures b[j] == was[j] {
    }
  }

  /** The loop of reloc, as compiled for the camera; `mem` reads the original image and `dst` is the
      memory from `base` on. */
  method Relocate(r: Region, mem: Word -> Word, dst: array<Word>) returns (entry: Word)
    requires r.Valid() && r.base + 16 < 0x1_0000_0000 && dst.Length >= r.Count() + 4
    modifies dst
    ensures entry == r.base + 16
    ensures Written(r, mem, r.Count(), old(dst[..]), dst[..])
  {
    hide Copied, IsBranch, IsPcLoad, LoadAddress, FixBranch, FixLoad, Written, Slots;
    ghost var was := dst[..];
    ghost var k: nat := 0;
    var fixups, newPc, pc := r.base, r.base + 16, r.start as nat;
    entry := newPc;
    WrittenNothing(r, mem, was);
    assert Slots(r, mem, 0) == 0;
    while pc <= r.end
      invariant k <= r.Count() && pc == r.start + 4 * k && newPc == r.base + 16 + 4 * k
      invariant fixups == r.base + 4 * Slots(r, mem, k)
      invariant pc <= r.end ==> k < r.Count()
      invariant Written(r, mem, k, was, dst[..])
      decreases r.Count() - k
    {
      ghost var a := dst[..];
      CopiedIs(r, mem, k);
      WrittenStep(r, mem, k, was, a);
      SlotsStep(r, mem, k);
      var at := (newPc - r.base) / 4;
      var instr := mem(pc);
      dst[at] := instr;
      if IsBranch(instr) {
        dst[at] := FixBranch(r, instr, pc, newPc);
      } else if IsPcLoad(instr) {
        var dest := LoadAddress(pc, instr);
        if !r.Inside(dest) {
          dst[(fixups - r.base) / 4] := mem(dest);
          dst[at] := FixLoad(instr, fixups, newPc);
          fixups := fixups + 4;
        }
      }
      assert dst[..] == Step(r, mem, k, a);
      pc, newPc, k := pc + 4, newPc + 4, k + 1;
    }
  }

  lemma WrittenNothing(r: Region, mem: Word -> Word, was: seq<Word>)
    requires r.Valid() && |was| >= r.Count() + 4
    ensures Written(r, mem, 0, was, was)
  {
  }

  lemma CopiedIs(r: Region, mem: Word -> Word, i: nat)
    requires r.Valid() && i < r.Count()
    ensures var w := mem(r.Old(i));
      Copied(r, mem, i) ==
        if IsBranch(w) then FixBranch(r, w, r.Old(i), r.New(i))
        else if FarLoad(r, r.Old(i), w) then FixLoad(w, r.base + 4 * Slots(r, mem, i), r.New(i))
        else w
  {
  }

  // ---- Branches ----------------------------------------------------------------------------

  /** The loop finds the destination that the machine goes to. */
  lemma DestinationIsTarget(pc: Word, w: Word)
    ensures Destination(pc, w) == Target(pc, w)
  {
    var offset := w % 0x100_0000;
    if offset >= 0x80_0000 {
      assert offset / 0x80_0000 == 1;
      var j := offset - 0x100_0000;
      assert (offset + 0xFF00_0000) * 4 == 4 * j + 4 * 0x1_0000_0000;
      SameRemainder(4 * j, 4);
      SameWrap(pc + 8, 4 * j);
    } else {
      SameWrap(pc + 8, 4 * offset);
    }
  }

  lemma SameRemainder(x: int, k: int)
    ensures Wrap(x + k * 0x1_0000_0000) == Wrap(x)
  {
  }

  lemma SameWrap(x: int, y: int)
    ensures Wrap(x + Wrap(y)) == Wrap(x + y)
  {
    SameRemainder(x + Wrap(y), y / 0x1_0000_0000);
  }

  lemma JumpSet(w: Word, jump: int)
    requires -0x80_0000 <= jump < 0x80_0000
    ensures Jump(SetJump(w, jump)) == jump && SetJump(w, jump) / 0x100_0000 == w / 0x100_0000
  {
    var high := w / 0x100_0000;
    assert w - w % 0x100_0000 == high * 0x100_0000;
    assert SetJump(w, jump) == high * 0x100_0000 + jump % 0x100_0000;
  }

  /** The bits above the jump field stay: condition, and B or BL. */
  lemma BranchKeepsHead(r: Region, w: Word, pc: Word, newPc: Word)
    ensures FixBranch(r, w, pc, newPc) / 0x100_0000 == w / 0x100_0000
    ensures IsBranch(w) ==> IsBranch(FixBranch(r, w, pc, newPc))
  {
    var newJump := NewJump(Destination(pc, w), newPc);
    if Reaches(newJump) { JumpSet(w, newJump); }
  }

  lemma Aligned(x: int)
    requires x % 4 == 0
    ensures Wrap(x) % 4 == 0 && Signed(Wrap(x)) % 4 == 0
  {
  }

  /** Adding a difference that has been cut to 32 bits gives the same word. */
  lemma SignedWrap(x: int, y: int)
    ensures Wrap(y + Signed(Wrap(x))) == Wrap(y + x)
  {
    SameWrap(y, x);
    if Wrap(x) >= 0x8000_0000 { SameRemainder(y + Wrap(x), -1); }
  }

  lemma WrapWord(w: Word)
    ensures Wrap(w) == w
  {
  }

  /** The same displacement from two places ends at two places. */
  lemma Shifted(x: Word, y: Word, d: int)
    ensures Wrap(y + d) == Wrap(Wrap(x + d) + y - x)
    ensures Wrap(x + d) == Wrap(y + d) <==> x == y
  {
    SameWrap(y - x, x + d);
    if Wrap(x + d) == Wrap(y + d) { Cancel(x, y, d); }
  }

  lemma Cancel(x: Word, y: Word, d: int)
    requires Wrap(x + d) == Wrap(y + d)
    ensures x == y
  {
    SameWrap(-d, x + d);
    SameWrap(-d, y + d);
    WrapWord(x);
    WrapWord(y);
  }

  /** A branch that leaves the function has the same absolute target at its new address exactly
      when that target is in reach. */
  lemma BranchOutside(r: Region, w: Word, pc: Word, newPc: Word)
    requires pc % 4 == 0 && newPc % 4 == 0 && !r.Inside(Target(pc, w))
    ensures Target(newPc, FixBranch(r, w, pc, newPc)) == Target(pc, w) <==>
      Reaches(NewJump(Target(pc, w), newPc)) || newPc == pc
  {
    hide Jump, SetJump, Wrap, Signed, Destination;
    DestinationIsTarget(pc, w);
    var dest := Target(pc, w);
    var newJump := NewJump(dest, newPc);
    if Reaches(newJump) {
      JumpSet(w, newJump);
      Aligned(pc + 8 + 4 * Jump(w));
      Aligned(dest - newPc - 8);
      SignedWrap(dest - newPc - 8, newPc + 8);
      WrapWord(dest);
      assert 4 * newJump == Signed(Wrap(dest - newPc - 8));
      assert newPc + 8 + (dest - newPc - 8) == dest;
      assert Target(newPc, SetJump(w, newJump)) == dest;
    } else {
      Shifted(pc, newPc, 8 + 4 * Jump(w));
      assert pc + 8 + 4 * Jump(w) == pc + (8 + 4 * Jump(w)) && newPc + 8 + 4 * Jump(w) == newPc + (8 + 4 * Jump(w));
    }
  }

  /** A branch inside the function goes to the copy of the word it went to. */
  lemma BranchInside(r: Region, i: nat, w: Word)
    requires r.Valid() && i < r.Count() && r.Inside(Target(r.Old(i), w))
    ensures var j := (Target(r.Old(i), w) - r.start) / 4;
      j < r.Count() && Target(r.Old(i), w) == r.Old(j) &&
      Target(r.New(i), FixBranch(r, w, r.Old(i), r.New(i))) == r.New(j)
  {
    hide Jump, SetJump, Wrap, Signed, Destination;
    DestinationIsTarget(r.Old(i), w);
    var dest := Target(r.Old(i), w);
    Aligned(r.Old(i) + 8 + 4 * Jump(w));
    var j := (dest - r.start) / 4;
    assert dest == r.start + 4 * j;
    var d := 8 + 4 * Jump(w);
    assert r.Old(i) + 8 + 4 * Jump(w) == r.Old(i) + d && r.New(i) + 8 + 4 * Jump(w) == r.New(i) + d;
    Shifted(r.Old(i), r.New(i), d);
    assert dest + r.New(i) - r.Old(i) == r.New(j);
    WrapWord(r.New(j));
  }

  /** Where the copy of a branch should go. */
  ghost function Expected(r: Region, dest: Word): Word
    requires r.Valid() && dest % 4 == 0
  {
    if r.Inside(dest) then r.New((dest - r.start) / 4) else dest
  }

  lemma TargetAligned(pc: Word, w: Word)
    requires pc % 4 == 0
    ensures Target(pc, w) % 4 == 0
  {
    hide Jump;
    Aligned(pc + 8 + 4 * Jump(w));
  }

  /** After reloc the copy of a branch goes where it should, for every branch that the literals have
      not overwritten: exactly when it stays inside, or is in reach, or has not moved. */
  lemma BranchesMove(r: Region, mem: Word -> Word, was: seq<Word>, dst: seq<Word>, i: nat)
    requires r.Valid() && |was| == |dst| >= r.Count() + 4 && Written(r, mem, r.Count(), was, dst)
    requires i < r.Count() && Slots(r, mem, r.Count()) <= i + 4 && IsBranch(mem(r.Old(i)))
    ensures IsBranch(dst[i + 4]) && dst[i + 4] / 0x100_0000 == mem(r.Old(i)) / 0x100_0000
    ensures var dest := Target(r.Old(i), mem(r.Old(i)));
      dest % 4 == 0 &&
      (Target(r.New(i), dst[i + 4]) == Expected(r, dest) <==>
        r.Inside(dest) || Reaches(NewJump(dest, r.New(i))) || r.New(i) == r.Old(i))
  {
    hide Target, FixBranch, NewJump, Reaches, IsBranch;
    var w := mem(r.Old(i));
    CopiedIs(r, mem, i);
    BranchKeepsHead(r, w, r.Old(i), r.New(i));
    TargetAligned(r.Old(i), w);
    if r.Inside(Target(r.Old(i), w)) {
      BranchInside(r, i, w);
    } else {
      BranchOutside(r, w, r.Old(i), r.New(i));
    }
  }

  // ---- Literals ----------------------------------------------------------------------------

  /** Word `l` is the far access whose literal has number `n`, and `v` is that literal. */
  ghost predicate Literal(r: Region, mem: Word -> Word, l: nat, n: nat, v: Word)
    requires r.Valid()
  {
    l < r.Count() && FarLoad(r, r.Old(l), mem(r.Old(l))) && Slots(r, mem, l) == n &&
    v == mem(LoadAddress(r.Old(l), mem(r.Old(l))))
  }

  /** The four words before the entry are room for four literals: beyond that the first words of the
      copy are overwritten, each with a literal. */
  lemma FifthLiteral(r: Region, mem: Word -> Word, was: seq<Word>, dst: seq<Word>, i: nat) returns (l: nat)
    requires r.Valid() && |was| == |dst| >= r.Count() + 4 && Written(r, mem, r.Count(), was, dst)
    requires i + 4 < Slots(r, mem, r.Count())
    ensures Literal(r, mem, l, i + 4, dst[i + 4])
  {
    hide FarLoad, LoadAddress, Copied, Slots;
    l := SlotOwner(r, mem, i + 4, r.Count());
  }

  /** A branch and five loads, `ldr r0, [pc, #4095]`. */
  function SixWords(addr: Word): Word { if addr == 0 then 0xEA00_0000 else 0xE59F_0FFF }

  lemma SixWordsFar(pc: Word)
    requires 0 < pc <= 20 && pc % 4 == 0
    ensures FarLoad(Region(0, 20, 0x9000), pc, SixWords(pc))
  {
    assert LoadAddress(pc, SixWords(pc)) == pc + 8 + 4095;
  }

  /** So the claim about branches is not true of every function: this one starts with a branch inside
      itself, and its copy does not. */
  lemma BranchLost(was: seq<Word>, dst: seq<Word>)
    requires |was| == |dst| >= 10 && Written(Region(0, 20, 0x9000), SixWords, 6, was, dst)
    ensures IsBranch(SixWords(0)) && Region(0, 20, 0x9000).Inside(Target(0, SixWords(0)))
    ensures !IsBranch(dst[4])
  {
    hide Copied, FarLoad, LoadAddress, Slots, Written;
    var r := Region(0, 20, 0x9000);
    forall k: nat | 1 <= k < 6 ensures FarLoad(r, r.Old(k), SixWords(r.Old(k))) { SixWordsFar(r.Old(k)); }
    SlotsStep(r, SixWords, 1);
    SlotsStep(r, SixWords, 2);
    SlotsStep(r, SixWords, 3);
    SlotsStep(r, SixWords, 4);
    SlotsStep(r, SixWords, 5);
    var l := FifthLiteral(r, SixWords, was, dst, 0);
    FarNotZero(r, l);
  }

  lemma FarNotZero(r: Region, l: nat)
    requires r == Region(0, 20, 0x9000) && l < r.Count() && FarLoad(r, r.Old(l), SixWords(r.Old(l)))
    ensures SixWords(LoadAddress(r.Old(l), SixWords(r.Old(l)))) == 0xE59F_0FFF
  {
    assert l != 0;
    assert LoadAddress(r.Old(l), SixWords(r.Old(l))) == r.Old(l) + 8 + 4095;
  }

  /** A far literal is put where the copied access looks for it exactly when that is less than 4096
      bytes away; the distance is not checked. */
  lemma LiteralsMove(r: Region, mem: Word -> Word, was: seq<Word>, dst: seq<Word>, i: nat)
    requires r.Valid() && |was| == |dst| >= r.Count() + 4 && Written(r, mem, r.Count(), was, dst)
    requires i < r.Count() && Slots(r, mem, r.Count()) <= i + 4 && FarLoad(r, r.Old(i), mem(r.Old(i)))
    requires r.New(i) + 8 - r.base < 0x8000_0000
    ensures var slot := Slots(r, mem, i);
      slot < |dst| && dst[slot] == mem(LoadAddress(r.Old(i), mem(r.Old(i)))) &&
      (LoadAddress(r.New(i), dst[i + 4]) == r.base + 4 * slot <==> 24 + 4 * (i - slot) < 0x1000)
  {
    hide FarLoad, LoadAddress, FixLoad, IsBranch;
    var w := mem(r.Old(i));
    assert !IsBranch(w) by { FarIsNoBranch(r, r.Old(i), w); }
    CopiedIs(r, mem, i);
    LoadMoves(w, r.base + 4 * Slots(r, mem, i), r.New(i));
  }

  lemma FarIsNoBranch(r: Region, pc: Word, w: Word)
    requires FarLoad(r, pc, w)
    ensures !IsBranch(w)
  {
  }

  lemma LoadMoves(w: Word, fixups: Word, newPc: Word)
    requires fixups + 16 <= newPc
    requires newPc + 8 - fixups < 0x8000_0000
    ensures LoadAddress(newPc, FixLoad(w, fixups, newPc)) == fixups <==> newPc + 8 - fixups < 0x1000
  {
    var d := newPc + 8 - fixups;
    assert Signed(Wrap(-d)) == -d;
    LoadFields(w, d);
    LoadFixed(w, fixups, newPc);
    Down(newPc, d);
  }

  lemma LoadFixed(w: Word, fixups: Word, newPc: Word)
    requires var d := newPc + 8 - fixups; 0 < d < 0x8000_0000
    ensures FixLoad(w, fixups, newPc) == SetOffset(w, newPc + 8 - fixups)
  {
    var d := newPc + 8 - fixups;
    assert fixups - newPc - 8 == -d;
    assert Signed(Wrap(-d)) == -d;
  }

  /** A word with the offset `d` and the direction bit clear. */
  function SetOffset(w: Word, d: nat): Word {
    var down := w - w / 0x80_0000 % 2 * 0x80_0000;
    down - down % 0x1000 + d % 0x1000
  }

  lemma LoadFields(w: Word, d: nat)
    ensures SetOffset(w, d) % 0x1000 == d % 0x1000 && SetOffset(w, d) / 0x80_0000 % 2 == 0
  {
    var down := w - w / 0x80_0000 % 2 * 0x80_0000;
    var page := down / 0x1000;
    assert down - down % 0x1000 == page * 0x1000;
    assert SetOffset(w, d) == page * 0x1000 + d % 0x1000;
    assert SetOffset(w, d) / 0x1000 == page;
    assert SetOffset(w, d) / 0x80_0000 == page / 0x800 == down / 0x80_0000;
  }

  lemma Down(newPc: Word, d: nat)
    requires d <= newPc + 8 && 24 <= d < 0x8000_0000
    ensures Wrap(newPc + 8 - d % 0x1000) == newPc + 8 - d <==> d < 0x1000
  {
    var k := d / 0x1000;
    assert d == k * 0x1000 + d % 0x1000;
    if k > 0 {
      var f := newPc + 8 - d;
      assert newPc + 8 - d % 0x1000 == f + k * 0x1000;
    }
  }
}
