/** Function prototypes. */
module LuaProto {
  import opened Opcodes

  type Byte = b: nat | b < 256
  type Str = seq<Byte>

  datatype Option<+T> = None | Some(value: T)

  /** A constant; a number is its eight bytes. */
  datatype Const = KNil | KBool(b: bool) | KNum(bits: seq<Byte>) | KStr(s: Str)

  datatype LocVar = LocVar(varname: Option<Str>, startpc: int, endpc: int)

  const VARARG_HASARG: nat := 1
  const VARARG_ISVARARG: nat := 2
  const VARARG_NEEDSARG: nat := 4

  datatype Proto = Proto(
    source: Option<Str>, linedefined: int, lastlinedefined: int,
    nups: Byte, numparams: Byte, isVararg: Byte, maxstacksize: Byte,
    code: seq<Word>, k: seq<Const>, p: seq<Proto>,
    lineinfo: seq<int>, locvars: seq<LocVar>, upvalues: seq<Option<Str>>)

  /** A flag of is_vararg. */
  predicate Flag(bits: nat, flag: nat)
    requires flag > 0
  {
    bits / flag % 2 == 1
  }
}
