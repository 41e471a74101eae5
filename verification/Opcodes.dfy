/** lopcodes.h and lopcodes.c: the fields of an instruction word, and the properties of opcodes.
    Shifts and masks of the macros are written as divisions and remainders. */
module Opcodes {

  type Word = w: nat | w < 0x1_0000_0000

  const MAXARG_A: nat := 0xFF
  const MAXARG_B: nat := 0x1FF
  const MAXARG_C: nat := 0x1FF
  const MAXARG_Bx: nat := 0x3_FFFF
  const MAXARG_sBx: nat := 0x1_FFFF

  function GetOpcode(i: Word): nat { i % 0x40 }

  function ArgA(i: Word): nat { i / 0x40 % 0x100 }

  function ArgC(i: Word): nat { i / 0x4000 % 0x200 }

  function ArgB(i: Word): nat { i / 0x80_0000 }

  function ArgBx(i: Word): nat { i / 0x4000 }

  /** A signed argument is stored in excess K. */
  function ArgSBx(i: Word): int { ArgBx(i) - MAXARG_sBx }

  function CreateABC(o: nat, a: nat, b: nat, c: nat): Word
    requires o < 0x40 && a <= MAXARG_A && b <= MAXARG_B && c <= MAXARG_C
  {
    o + a * 0x40 + c * 0x4000 + b * 0x80_0000
  }

  function CreateABx(o: nat, a: nat, bx: nat): Word
    requires o < 0x40 && a <= MAXARG_A && bx <= MAXARG_Bx
  {
    o + a * 0x40 + bx * 0x4000
  }

  function SetA(i: Word, a: nat): Word
    requires a <= MAXARG_A
  {
    i - ArgA(i) * 0x40 + a * 0x40
  }

  function SetB(i: Word, b: nat): Word
    requires b <= MAXARG_B
  {
    i - ArgB(i) * 0x80_0000 + b * 0x80_0000
  }

  function SetC(i: Word, c: nat): Word
    requires c <= MAXARG_C
  {
    i - ArgC(i) * 0x4000 + c * 0x4000
  }

  function SetSBx(i: Word, sbx: int): Word
    requires 0 <= sbx + MAXARG_sBx <= MAXARG_Bx
  {
    i - ArgBx(i) * 0x4000 + (sbx + MAXARG_sBx) * 0x4000
  }

  /** The fields of a word in the iABC format determine it, and every choice of fields is possible. */
  lemma FieldsABC(o: nat, a: nat, b: nat, c: nat)
    requires o < 0x40 && a <= MAXARG_A && b <= MAXARG_B && c <= MAXARG_C
    ensures var i := CreateABC(o, a, b, c);
      GetOpcode(i) == o && ArgA(i) == a && ArgB(i) == b && ArgC(i) == c
  {
    var i := CreateABC(o, a, b, c);
    Quotient(i, 0x40, a + c * 0x100 + b * 0x2_0000, o);
    Quotient(i / 0x40, 0x100, c + b * 0x200, a);
    Quotient(i, 0x4000, c + b * 0x200, o + a * 0x40);
    Quotient(i / 0x4000, 0x200, b, c);
    Quotient(i, 0x80_0000, b, o + a * 0x40 + c * 0x4000);
  }

  lemma FieldsABx(o: nat, a: nat, bx: nat)
    requires o < 0x40 && a <= MAXARG_A && bx <= MAXARG_Bx
    ensures var i := CreateABx(o, a, bx); GetOpcode(i) == o && ArgA(i) == a && ArgBx(i) == bx
  {
    var i := CreateABx(o, a, bx);
    Quotient(i, 0x40, a + bx * 0x100, o);
    Quotient(i / 0x40, 0x100, bx, a);
    Quotient(i, 0x4000, bx, o + a * 0x40);
  }

  lemma Quotient(i: nat, d: nat, q: nat, r: nat)
    requires d > 0 && r < d && i == q * d + r
    ensures i / d == q && i % d == r
  {
    var q', r' := i / d, i % d;
    assert i == q' * d + r';
    assert q' < q ==> (q' + 1) * d <= q * d;
    assert q < q' ==> (q + 1) * d <= q' * d;
  }

  lemma WordOfFields(i: Word)
    ensures ArgA(i) <= MAXARG_A && ArgB(i) <= MAXARG_B && ArgC(i) <= MAXARG_C && ArgBx(i) <= MAXARG_Bx
    ensures CreateABC(GetOpcode(i), ArgA(i), ArgB(i), ArgC(i)) == i
    ensures CreateABx(GetOpcode(i), ArgA(i), ArgBx(i)) == i
    ensures ArgBx(i) == ArgC(i) + 0x200 * ArgB(i)
  {
    var q := i / 0x40;
    var r := q / 0x100;
    Quotient(i, 0x4000, r, i % 0x40 + 0x40 * (q % 0x100));
    Quotient(i, 0x80_0000, r / 0x200, i % 0x4000 + 0x4000 * (r % 0x200));
  }

  /** Setting one field changes that field only. */
  lemma SetFields(i: Word, a: nat, b: nat, c: nat)
    requires a <= MAXARG_A && b <= MAXARG_B && c <= MAXARG_C
    ensures SetA(i, a) == CreateABC(GetOpcode(i), a, ArgB(i), ArgC(i))
    ensures SetB(i, b) == CreateABC(GetOpcode(i), ArgA(i), b, ArgC(i))
    ensures SetC(i, c) == CreateABC(GetOpcode(i), ArgA(i), ArgB(i), c)
  {
    WordOfFields(i);
  }

  /** fixjump and getjump: an offset within the limits is read back as it was written. */
  lemma SetOffset(i: Word, sbx: int)
    requires 0 <= sbx + MAXARG_sBx && sbx <= MAXARG_sBx
    ensures ArgSBx(SetSBx(i, sbx)) == sbx && GetOpcode(SetSBx(i, sbx)) == GetOpcode(i) && ArgA(SetSBx(i, sbx)) == ArgA(i)
  {
    WordOfFields(i);
    FieldsABx(GetOpcode(i), ArgA(i), sbx + MAXARG_sBx);
  }

  // ---- Opcodes -----------------------------------------------------------------------------

  const OP_MOVE: nat := 0
  const OP_LOADK: nat := 1
  const OP_LOADBOOL: nat := 2
  const OP_LOADNIL: nat := 3
  const OP_GETUPVAL: nat := 4
  const OP_GETGLOBAL: nat := 5
  const OP_GETTABLE: nat := 6
  const OP_SETGLOBAL: nat := 7
  const OP_SETUPVAL: nat := 8
  const OP_SETTABLE: nat := 9
  const OP_NEWTABLE: nat := 10
  const OP_SELF: nat := 11
  const OP_ADD: nat := 12
  const OP_SUB: nat := 13
  const OP_MUL: nat := 14
  const OP_DIV: nat := 15
  const OP_MOD: nat := 16
  const OP_POW: nat := 17
  const OP_UNM: nat := 18
  const OP_NOT: nat := 19
  const OP_LEN: nat := 20
  const OP_CONCAT: nat := 21
  const OP_JMP: nat := 22
  const OP_EQ: nat := 23
  const OP_LT: nat := 24
  const OP_LE: nat := 25
  const OP_TEST: nat := 26
  const OP_TESTSET: nat := 27
  const OP_CALL: nat := 28
  const OP_TAILCALL: nat := 29
  const OP_RETURN: nat := 30
  const OP_FORLOOP: nat := 31
  const OP_FORPREP: nat := 32
  const OP_TFORLOOP: nat := 33
  const OP_SETLIST: nat := 34
  const OP_CLOSE: nat := 35
  const OP_CLOSURE: nat := 36
  const OP_VARARG: nat := 37
  const NUM_OPCODES: nat := 38

  datatype Format = ABC | ABx | AsBx
  datatype ArgMode = NotUsed | Used | RegOrJump | RegOrConst

  datatype Mode = Mode(test: bool, setsA: bool, b: ArgMode, c: ArgMode, format: Format)

  /** luaP_opmodes. */
  function ModeOf(op: nat): Mode {
    if op == OP_MOVE || op == OP_LOADNIL then Mode(false, true, RegOrJump, NotUsed, ABC)
    else if op == OP_LOADK || op == OP_GETGLOBAL then Mode(false, true, RegOrConst, NotUsed, ABx)
    else if op == OP_LOADBOOL || op == OP_NEWTABLE || op == OP_CALL || op == OP_TAILCALL then Mode(false, true, Used, Used, ABC)
    else if op == OP_GETUPVAL || op == OP_VARARG then Mode(false, true, Used, NotUsed, ABC)
    else if op == OP_GETTABLE || op == OP_SELF then Mode(false, true, RegOrJump, RegOrConst, ABC)
    else if op == OP_SETGLOBAL then Mode(false, false, RegOrConst, NotUsed, ABx)
    else if op == OP_SETUPVAL || op == OP_RETURN then Mode(false, false, Used, NotUsed, ABC)
    else if op == OP_SETTABLE then Mode(false, false, RegOrConst, RegOrConst, ABC)
    else if OP_ADD <= op <= OP_POW then Mode(false, true, RegOrConst, RegOrConst, ABC)
    else if OP_UNM <= op <= OP_LEN then Mode(false, true, RegOrJump, NotUsed, ABC)
    else if op == OP_CONCAT then Mode(false, true, RegOrJump, RegOrJump, ABC)
    else if op == OP_JMP then Mode(false, false, RegOrJump, NotUsed, AsBx)
    else if op == OP_EQ || op == OP_LT || op == OP_LE then Mode(true, false, RegOrConst, RegOrConst, ABC)
    else if op == OP_TEST || op == OP_TESTSET then Mode(true, true, RegOrJump, Used, ABC)
    else if op == OP_FORLOOP || op == OP_FORPREP then Mode(false, true, RegOrJump, NotUsed, AsBx)
    else if op == OP_TFORLOOP then Mode(true, false, NotUsed, Used, ABC)
    else if op == OP_SETLIST then Mode(false, false, Used, Used, ABC)
    else if op == OP_CLOSURE then Mode(false, true, Used, NotUsed, ABx)
    else Mode(false, false, NotUsed, NotUsed, ABC)
  }
}
