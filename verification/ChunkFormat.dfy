/** The format of a precompiled chunk: the bytes of a prototype, and the prototype of bytes. */
module ChunkFormat {
  import opened Opcodes
  import opened LuaProto
  import Checker

  const MAXCCALLS: nat := 200
  const TWO32: nat := 0x1_0000_0000
  const TWO31: nat := 0x8000_0000

  datatype Error = UnexpectedEnd | BadInteger | BadConstant | TooDeep | BadCode | BadHeader

  /** What loading gives: a value and the bytes behind it, or an error. */
  datatype Load<+T> = Ok(value: T, rest: Str) | Err(e: Error)

  // ---- Bytes -------------------------------------------------------------------------------

  /** A word, least significant byte first. */
  function WordBytes(x: Word): (r: Str)
    ensures |r| == 4
  {
    [x % 0x100, x / 0x100 % 0x100, x / 0x1_0000 % 0x100, x / 0x100_0000]
  }

  function BytesWord(b: Str): Word
    requires |b| == 4
  {
    var b0: nat, b1: nat, b2: nat, b3: nat := b[0], b[1], b[2], b[3];
    b0 + 0x100 * b1 + 0x1_0000 * b2 + 0x100_0000 * b3
  }

  lemma WordRound(x: Word)
    ensures BytesWord(WordBytes(x)) == x
  {
    Split(x, x / 0x100, x / 0x1_0000, x / 0x100_0000);
  }

  lemma Split(x: Word, a: nat, b: nat, c: nat)
    requires a == x / 0x100 && b == x / 0x1_0000 && c == x / 0x100_0000
    ensures x % 0x100 + 0x100 * (a % 0x100) + 0x1_0000 * (b % 0x100) + 0x100_0000 * c == x
  {
    Quotient(x, 0x1_0000, a / 0x100, x % 0x100 + 0x100 * (a % 0x100));
    Quotient(x, 0x100_0000, b / 0x100, x % 0x1_0000 + 0x1_0000 * (b % 0x100));
  }

  /** An int as it lies in memory. */
  function IntBytes(x: int): (r: Str)
    ensures |r| == 4
  {
    WordBytes(x % TWO32)
  }

  /** The int of a word. */
  function Signed(w: Word): int { if w < TWO31 then w else w - TWO32 }

  const HEADER: Str := [0x1B, 0x4C, 0x75, 0x61, 0x51, 0, 1, 4, 4, 4, 8, 0]

  // ---- Dumping -----------------------------------------------------------------------------

  function Join<T>(enc: T -> Str, xs: seq<T>): Str {
    if xs == [] then [] else enc(xs[0]) + Join(enc, xs[1..])
  }

  function StringBytes(s: Option<Str>): Str {
    match s
    case None => IntBytes(0)
    case Some(t) => IntBytes(|t| + 1) + t + [0]
  }

  function ConstBytes(c: Const): Str {
    match c
    case KNil => [0]
    case KBool(b) => [1, if b then 1 else 0]
    case KNum(bits) => [3] + bits
    case KStr(s) => [4] + StringBytes(Some(s))
  }

  function LocVarBytes(v: LocVar): Str { StringBytes(v.varname) + IntBytes(v.startpc) + IntBytes(v.endpc) }

  function CodeBytes(code: seq<Word>): Str { IntBytes(|code|) + Join(WordBytes, code) }

  function DebugBytes(f: Proto, strip: bool): Str {
    if strip then IntBytes(0) + IntBytes(0) + IntBytes(0)
    else IntBytes(|f.lineinfo|) + Join(IntBytes, f.lineinfo) + (IntBytes(|f.locvars|) + Join(LocVarBytes, f.locvars)) +
         (IntBytes(|f.upvalues|) + Join(StringBytes, f.upvalues))
  }

  function HeadBytes(f: Proto, p: Option<Str>, strip: bool): Str {
    StringBytes(if f.source == p || strip then None else f.source) + IntBytes(f.linedefined) + IntBytes(f.lastlinedefined) +
    [f.nups, f.numparams, f.isVararg, f.maxstacksize]
  }

  /** DumpFunction, for a function whose parent has the source p. */
  function FunctionBytes(f: Proto, p: Option<Str>, strip: bool): Str
    decreases f, 1
  {
    HeadBytes(f, p, strip) + CodeBytes(f.code) + (IntBytes(|f.k|) + Join(ConstBytes, f.k)) +
    (IntBytes(|f.p|) + ProtosBytes(f, 0, strip)) + DebugBytes(f, strip)
  }

  function ProtosBytes(f: Proto, i: nat, strip: bool): Str
    requires i <= |f.p|
    decreases f, 0, |f.p| - i
  {
    if i == |f.p| then [] else FunctionBytes(f.p[i], f.source, strip) + ProtosBytes(f, i + 1, strip)
  }

  /** luaU_dump. */
  function ChunkBytes(f: Proto, strip: bool): Str { HEADER + FunctionBytes(f, None, strip) }

  // ---- Loading -----------------------------------------------------------------------------

  function LoadBlock(bs: Str, n: nat): Load<Str> {
    if n <= |bs| then Ok(bs[..n], bs[n..]) else Err(UnexpectedEnd)
  }

  function LoadByte(bs: Str): Load<Byte> {
    if bs == [] then Err(UnexpectedEnd) else Ok(bs[0], bs[1..])
  }

  function LoadWord(bs: Str): Load<Word> {
    if |bs| < 4 then Err(UnexpectedEnd) else Ok(BytesWord(bs[..4]), bs[4..])
  }

  function LoadInt(bs: Str): Load<nat> {
    match LoadWord(bs)
    case Err(e) => Err(e)
    case Ok(w, rest) => if Signed(w) < 0 then Err(BadInteger) else Ok(Signed(w), rest)
  }

  function LoadLine(bs: Str): Load<int> {
    match LoadWord(bs)
    case Err(e) => Err(e)
    case Ok(w, rest) => Ok(Signed(w), rest)
  }

  function LoadString(bs: Str): Load<Option<Str>> {
    match LoadWord(bs)
    case Err(e) => Err(e)
    case Ok(size, rest) =>
      if size == 0 then Ok(None, rest) else
      match LoadBlock(rest, size)
      case Err(e) => Err(e)
      case Ok(s, rest2) => Ok(Some(s[..size-1]), rest2)
  }

  function LoadConst(bs: Str): Load<Const> {
    match LoadByte(bs)
    case Err(e) => Err(e)
    case Ok(t, rest) =>
      if t == 0 then Ok(KNil, rest)
      else if t == 1 then
        (match LoadByte(rest) case Err(e) => Err(e) case Ok(b, rest2) => Ok(KBool(b != 0), rest2))
      else if t == 3 then
        (match LoadBlock(rest, 8) case Err(e) => Err(e) case Ok(bits, rest2) => Ok(KNum(bits), rest2))
      else if t == 4 then
        (match LoadString(rest)
         case Err(e) => Err(e)
         case Ok(None, _) => Err(BadConstant)
         case Ok(Some(s), rest2) => Ok(KStr(s), rest2))
      else Err(BadConstant)
  }

  function LoadLocVar(bs: Str): Load<LocVar> {
    match LoadString(bs)
    case Err(e) => Err(e)
    case Ok(name, r1) =>
      match LoadInt(r1)
      case Err(e) => Err(e)
      case Ok(start, r2) =>
        match LoadInt(r2)
        case Err(e) => Err(e)
        case Ok(end, r3) => Ok(LocVar(name, start, end), r3)
  }

  /** n things, behind those that are in acc already. */
  function LoadMany<T>(one: Str -> Load<T>, n: nat, acc: seq<T>, bs: Str): Load<seq<T>> {
    if n == 0 then Ok(acc, bs) else
    match one(bs)
    case Err(e) => Err(e)
    case Ok(v, rest) => LoadMany(one, n - 1, acc + [v], rest)
  }

  /** A number and as many things. */
  function LoadList<T>(one: Str -> Load<T>, bs: Str): Load<seq<T>> {
    match LoadInt(bs)
    case Err(e) => Err(e)
    case Ok(n, rest) => LoadMany(one, n, [], rest)
  }

  datatype Head = Head(source: Option<Str>, linedefined: int, lastlinedefined: int, nups: Byte, numparams: Byte, isVararg: Byte, maxstacksize: Byte)

  function LoadHead(bs: Str, p: Option<Str>): Load<Head> {
    match LoadString(bs)
    case Err(e) => Err(e)
    case Ok(source, r1) =>
      match LoadInt(r1)
      case Err(e) => Err(e)
      case Ok(line, r2) =>
        match LoadInt(r2)
        case Err(e) => Err(e)
        case Ok(last, r3) =>
          match LoadBlock(r3, 4)
          case Err(e) => Err(e)
          case Ok(b, r4) => Ok(Head(if source.None? then p else source, line, last, b[0], b[1], b[2], b[3]), r4)
  }

  datatype Debug = Debug(lineinfo: seq<int>, locvars: seq<LocVar>, upvalues: seq<Option<Str>>)

  function LoadDebug(bs: Str): Load<Debug> {
    match LoadList(LoadLine, bs)
    case Err(e) => Err(e)
    case Ok(lines, r1) =>
      match LoadList(LoadLocVar, r1)
      case Err(e) => Err(e)
      case Ok(locvars, r2) =>
        match LoadList(LoadString, r2)
        case Err(e) => Err(e)
        case Ok(upvalues, r3) => Ok(Debug(lines, locvars, upvalues), r3)
  }

  function Assembled(h: Head, code: seq<Word>, k: seq<Const>, p: seq<Proto>, d: Debug): Proto {
    Proto(h.source, h.linedefined, h.lastlinedefined, h.nups, h.numparams, h.isVararg, h.maxstacksize, code, k, p, d.lineinfo, d.locvars, d.upvalues)
  }

  /** LoadFunction, inside of `depth` other calls. */
  ghost function LoadFunction(bs: Str, p: Option<Str>, depth: nat): Load<Proto>
    requires depth <= MAXCCALLS
    decreases MAXCCALLS - depth, 0, 0
  {
    if depth + 1 > MAXCCALLS then Err(TooDeep) else
    match LoadHead(bs, p)
    case Err(e) => Err(e)
    case Ok(h, r1) =>
      match LoadList(LoadWord, r1)
      case Err(e) => Err(e)
      case Ok(code, r2) =>
        match LoadList(LoadConst, r2)
        case Err(e) => Err(e)
        case Ok(k, r3) =>
          match LoadInt(r3)
          case Err(e) => Err(e)
          case Ok(n, r4) =>
            match LoadProtos(n, [], r4, h.source, depth + 1)
            case Err(e) => Err(e)
            case Ok(ps, r5) =>
              match LoadDebug(r5)
              case Err(e) => Err(e)
              case Ok(d, r6) =>
                var f := Assembled(h, code, k, ps, d);
                if Checker.Accepts(f) then Ok(f, r6) else Err(BadCode)
  }

  ghost function LoadProtos(n: nat, acc: seq<Proto>, bs: Str, source: Option<Str>, depth: nat): Load<seq<Proto>>
    requires depth <= MAXCCALLS
    decreases MAXCCALLS - depth, 1, n
  {
    if n == 0 then Ok(acc, bs) else
    match LoadFunction(bs, source, depth)
    case Err(e) => Err(e)
    case Ok(f, rest) => LoadProtos(n - 1, acc + [f], rest, source, depth)
  }

  /** The source name "=?" of a chunk that has none. */
  const NO_SOURCE: Str := [61, 63]

  /** luaU_undump. */
  ghost function LoadChunk(bs: Str, depth: nat): Load<Proto>
    requires depth <= MAXCCALLS
  {
    match LoadBlock(bs, |HEADER|)
    case Err(e) => Err(e)
    case Ok(h, rest) => if h != HEADER then Err(BadHeader) else LoadFunction(rest, Some(NO_SOURCE), depth)
  }

  // ---- What can be dumped and loaded -------------------------------------------------------

  predicate SmallInt(x: int) { 0 <= x < TWO31 }

  predicate StringOk(s: Option<Str>) { s.Some? ==> |s.value| + 1 < TWO32 }

  predicate ConstOk(c: Const) { (c.KNum? ==> |c.bits| == 8) && (c.KStr? ==> StringOk(Some(c.s))) }

  predicate LocVarOk(v: LocVar) { StringOk(v.varname) && SmallInt(v.startpc) && SmallInt(v.endpc) }

  predicate PartsOk(f: Proto) {
    && f.source.Some? && StringOk(f.source) && SmallInt(f.linedefined) && SmallInt(f.lastlinedefined)
    && SmallInt(|f.code|) && SmallInt(|f.k|) && SmallInt(|f.p|) && SmallInt(|f.lineinfo|) && SmallInt(|f.locvars|) && SmallInt(|f.upvalues|)
    && (forall c :: c in f.k ==> ConstOk(c)) && (forall v :: v in f.locvars ==> LocVarOk(v)) && (forall u :: u in f.upvalues ==> StringOk(u))
    && forall x :: x in f.lineinfo ==> 0 <= x + TWO31 && x < TWO31
  }

  /** f may be written and read back inside of `depth` calls: sources are there, counts and lines
      are not negative, functions are not nested too deeply, and the checker accepts the code. */
  ghost predicate Encodable(f: Proto, depth: nat)
    decreases f
  {
    depth < MAXCCALLS && PartsOk(f) && Checker.Accepts(f) && forall i :: 0 <= i < |f.p| ==> Encodable(f.p[i], depth + 1)
  }

  /** f as it comes back: without debug information if that has been stripped. */
  function Loaded(f: Proto, strip: bool): Proto
    decreases f
  {
    if strip then
      f.(source := Some(NO_SOURCE), lineinfo := [], locvars := [], upvalues := [],
         p := seq(|f.p|, (i: nat) requires i < |f.p| => Loaded(f.p[i], strip)))
    else f
  }

  // ---- Round trips -------------------------------------------------------------------------

  lemma WordAt(w: Word, rest: Str)
    ensures LoadWord(WordBytes(w) + rest) == Ok(w, rest)
  {
    WordRound(w);
    assert (WordBytes(w) + rest)[..4] == WordBytes(w);
    assert (WordBytes(w) + rest)[4..] == rest;
  }

  lemma IntAt(x: int, rest: Str)
    requires SmallInt(x)
    ensures LoadInt(IntBytes(x) + rest) == Ok(x, rest)
  {
    WordAt(x % TWO32, rest);
  }

  lemma LineAt(x: int, rest: Str)
    requires 0 <= x + TWO31 && x < TWO31
    ensures LoadLine(IntBytes(x) + rest) == Ok(x, rest)
  {
    WordAt(x % TWO32, rest);
  }

  lemma BlockAt(b: Str, rest: Str)
    ensures LoadBlock(b + rest, |b|) == Ok(b, rest)
  {
    assert (b + rest)[..|b|] == b && (b + rest)[|b|..] == rest;
  }

  /** A string comes back with its zeros: its length is what counts. */
  lemma StringAt(s: Option<Str>, rest: Str)
    requires StringOk(s)
    ensures LoadString(StringBytes(s) + rest) == Ok(s, rest)
  {
    match s
    case None => WordAt(0, rest);
    case Some(t) =>
      var n := |t| + 1;
      assert n % TWO32 == n;
      assert StringBytes(s) + rest == WordBytes(n) + ((t + [0]) + rest);
      WordAt(n, (t + [0]) + rest);
      BlockAt(t + [0], rest);
      assert (t + [0])[..n-1] == t;
  }

  lemma ConstAt(c: Const, rest: Str)
    requires ConstOk(c)
    ensures LoadConst(ConstBytes(c) + rest) == Ok(c, rest)
  {
    hide StringBytes, LoadString;
    match c
    case KNil => assert ([0] + rest)[1..] == rest;
    case KBool(b) =>
      var t: Byte := if b then 1 else 0;
      assert ([1, t] + rest)[1..] == [t] + rest;
      assert ([t] + rest)[1..] == rest;
    case KNum(bits) =>
      assert (([3] + bits) + rest)[1..] == bits + rest;
      BlockAt(bits, rest);
    case KStr(s) =>
      assert (([4] + StringBytes(Some(s))) + rest)[1..] == StringBytes(Some(s)) + rest;
      StringAt(Some(s), rest);
  }

  lemma LocVarAt(v: LocVar, rest: Str)
    requires LocVarOk(v)
    ensures LoadLocVar(LocVarBytes(v) + rest) == Ok(v, rest)
  {
    hide StringBytes, IntBytes, LoadString, LoadInt;
    var r2 := IntBytes(v.endpc) + rest;
    var r1 := IntBytes(v.startpc) + r2;
    assert LocVarBytes(v) + rest == StringBytes(v.varname) + r1;
    StringAt(v.varname, r1);
    IntAt(v.startpc, r2);
    IntAt(v.endpc, rest);
  }

  /** Each of the things in xs is read back as it was written, whatever follows. */
  ghost predicate ReadBack<T(!new)>(one: Str -> Load<T>, enc: T -> Str, xs: seq<T>) {
    forall x, r: Str :: x in xs ==> one(enc(x) + r) == Ok(x, r)
  }

  lemma {:induction false} ManyAt<T(!new)>(one: Str -> Load<T>, enc: T -> Str, xs: seq<T>, acc: seq<T>, rest: Str)
    requires ReadBack(one, enc, xs)
    ensures LoadMany(one, |xs|, acc, Join(enc, xs) + rest) == Ok(acc + xs, rest)
    decreases |xs|
  {
    if xs == [] {
      assert Join(enc, xs) + rest == rest && acc + xs == acc;
    } else {
      var more := Join(enc, xs[1..]) + rest;
      assert Join(enc, xs) + rest == enc(xs[0]) + more;
      ManyAt(one, enc, xs[1..], acc + [xs[0]], rest);
      assert (acc + [xs[0]]) + xs[1..] == acc + xs;
    }
  }

  lemma ListAt<T(!new)>(one: Str -> Load<T>, enc: T -> Str, xs: seq<T>, rest: Str)
    requires SmallInt(|xs|) && ReadBack(one, enc, xs)
    ensures LoadList(one, IntBytes(|xs|) + Join(enc, xs) + rest) == Ok(xs, rest)
  {
    hide IntBytes, LoadInt, Join, ReadBack;
    assert IntBytes(|xs|) + Join(enc, xs) + rest == IntBytes(|xs|) + (Join(enc, xs) + rest);
    IntAt(|xs|, Join(enc, xs) + rest);
    ManyAt(one, enc, xs, [], rest);
    assert [] + xs == xs;
  }

  lemma HeadAt(f: Proto, p: Option<Str>, q: Option<Str>, strip: bool, rest: Str)
    requires PartsOk(f) && (strip || f.source != p || p == q)
    ensures LoadHead(HeadBytes(f, p, strip) + rest, q) ==
      Ok(Head(if strip then q else f.source, f.linedefined, f.lastlinedefined, f.nups, f.numparams, f.isVararg, f.maxstacksize), rest)
  {
    hide StringBytes, IntBytes, LoadString, LoadInt;
    var s := if f.source == p || strip then None else f.source;
    var b := [f.nups, f.numparams, f.isVararg, f.maxstacksize];
    var r2 := IntBytes(f.lastlinedefined) + (b + rest);
    var r1 := IntBytes(f.linedefined) + r2;
    assert HeadBytes(f, p, strip) + rest == StringBytes(s) + r1;
    StringAt(s, r1);
    IntAt(f.linedefined, r2);
    IntAt(f.lastlinedefined, b + rest);
    BlockAt(b, rest);
  }

  lemma DebugAt(f: Proto, strip: bool, rest: Str)
    requires PartsOk(f)
    ensures LoadDebug(DebugBytes(f, strip) + rest) == if strip then Ok(Debug([], [], []), rest) else Ok(Debug(f.lineinfo, f.locvars, f.upvalues), rest)
  {
    hide IntBytes, LoadList, LoadLine, LoadLocVar, LoadString, LocVarBytes, StringBytes;
    var lines, vars, ups := if strip then [] else f.lineinfo, if strip then [] else f.locvars, if strip then [] else f.upvalues;
    var b1, b2, b3 := IntBytes(|lines|) + Join(IntBytes, lines), IntBytes(|vars|) + Join(LocVarBytes, vars), IntBytes(|ups|) + Join(StringBytes, ups);
    assert strip ==> b1 == IntBytes(0) && b2 == IntBytes(0) && b3 == IntBytes(0);
    assert DebugBytes(f, strip) == b1 + b2 + b3;
    assert DebugBytes(f, strip) + rest == b1 + (b2 + (b3 + rest));
    forall x, r: Str | x in lines ensures LoadLine(IntBytes(x) + r) == Ok(x, r) { LineAt(x, r); }
    forall x, r: Str | x in vars ensures LoadLocVar(LocVarBytes(x) + r) == Ok(x, r) { LocVarAt(x, r); }
    forall x, r: Str | x in ups ensures LoadString(StringBytes(x) + r) == Ok(x, r) { StringAt(x, r); }
    ListAt(LoadLine, IntBytes, lines, b2 + (b3 + rest));
    ListAt(LoadLocVar, LocVarBytes, vars, b3 + rest);
    ListAt(LoadString, StringBytes, ups, rest);
  }

  /** Code stays acceptable when debug information is taken away. */
  lemma AcceptsLoaded(f: Proto, strip: bool)
    requires Checker.Accepts(f)
    ensures Checker.Accepts(Loaded(f, strip))
  {
    var g := Loaded(f, strip);
    forall pc | 0 <= pc < |g.code| && Checker.IsInstr(g.code, pc) ensures Checker.InstrOk(g, pc) {
      assert Checker.InstrOk(f, pc);
      SameChecks(f, g, pc);
    }
  }

  lemma SameChecks(f: Proto, g: Proto, pc: nat)
    requires pc < |f.code| && (pc == |f.code| - 1 ==> Checker.Op(f.code, pc) == OP_RETURN) && Checker.InstrOk(f, pc)
    requires g.code == f.code && g.k == f.k && g.isVararg == f.isVararg && g.nups == f.nups && g.maxstacksize == f.maxstacksize
    requires |g.p| == |f.p| && forall i :: 0 <= i < |f.p| ==> g.p[i].nups == f.p[i].nups
    ensures Checker.InstrOk(g, pc)
  {
    hide Checker.IsInstr, Checker.Pseudo, ArgA, ArgB, ArgC, ArgBx, ArgSBx, ModeOf;
  }

  /** luaU_undump after luaU_dump, inside of `depth` calls: what was written comes back, and only the
      bytes that were written are read. */
  lemma {:induction false} FunctionAt(f: Proto, p: Option<Str>, q: Option<Str>, strip: bool, rest: Str, depth: nat)
    requires Encodable(f, depth) && (if strip then q == Some(NO_SOURCE) else f.source != p || p == q)
    ensures LoadFunction(FunctionBytes(f, p, strip) + rest, q, depth) == Ok(Loaded(f, strip), rest)
    decreases f, 1
  {
    hide HeadBytes, CodeBytes, DebugBytes, IntBytes, WordBytes, ConstBytes, LoadHead, LoadList, LoadWord, LoadConst, LoadInt, LoadDebug, Checker.Accepts, LoadProtos, ProtosBytes;
    var b2, b3 := CodeBytes(f.code), IntBytes(|f.k|) + Join(ConstBytes, f.k);
    var b5, b6 := ProtosBytes(f, 0, strip), DebugBytes(f, strip);
    var r6 := b6 + rest;
    var r5 := b5 + r6;
    var r4 := IntBytes(|f.p|) + r5;
    var r3 := b3 + r4;
    var r2 := b2 + r3;
    assert FunctionBytes(f, p, strip) + rest == HeadBytes(f, p, strip) + r2;
    HeadAt(f, p, q, strip, r2);
    CodeAt(f.code, r3);
    forall x, r: Str | x in f.k ensures LoadConst(ConstBytes(x) + r) == Ok(x, r) { ConstAt(x, r); }
    ListAt(LoadConst, ConstBytes, f.k, r4);
    IntAt(|f.p|, r5);
    ProtosAt(f, 0, [], strip, r6, depth);
    DebugAt(f, strip, rest);
    AcceptsLoaded(f, strip);
    LoadedParts(f, strip);
    assert [] + LoadedFrom(f, 0, strip) == LoadedFrom(f, 0, strip);
  }

  lemma CodeAt(code: seq<Word>, rest: Str)
    requires SmallInt(|code|)
    ensures LoadList(LoadWord, CodeBytes(code) + rest) == Ok(code, rest)
  {
    hide IntBytes, WordBytes, LoadWord, LoadList;
    forall x, r: Str | x in code ensures LoadWord(WordBytes(x) + r) == Ok(x, r) { WordAt(x, r); }
    ListAt(LoadWord, WordBytes, code, rest);
  }

  lemma LoadedParts(f: Proto, strip: bool)
    requires PartsOk(f)
    ensures var g := Loaded(f, strip);
      g == Assembled(Head(if strip then Some(NO_SOURCE) else f.source, f.linedefined, f.lastlinedefined, f.nups, f.numparams, f.isVararg, f.maxstacksize),
                     f.code, f.k, LoadedFrom(f, 0, strip), if strip then Debug([], [], []) else Debug(f.lineinfo, f.locvars, f.upvalues))
  {
    assert strip ==> LoadedFrom(f, 0, strip) == Loaded(f, strip).p;
    assert !strip ==> LoadedFrom(f, 0, strip) == f.p;
  }

  function LoadedFrom(f: Proto, i: nat, strip: bool): (r: seq<Proto>)
    requires i <= |f.p|
    ensures |r| == |f.p| - i && forall j :: 0 <= j < |r| ==> r[j] == Loaded(f.p[i+j], strip)
    decreases |f.p| - i
  {
    if i == |f.p| then [] else [Loaded(f.p[i], strip)] + LoadedFrom(f, i + 1, strip)
  }

  lemma {:induction false} ProtosAt(f: Proto, i: nat, acc: seq<Proto>, strip: bool, rest: Str, depth: nat)
    requires Encodable(f, depth) && i <= |f.p|
    ensures LoadProtos(|f.p| - i, acc, ProtosBytes(f, i, strip) + rest, if strip then Some(NO_SOURCE) else f.source, depth + 1) ==
      Ok(acc + LoadedFrom(f, i, strip), rest)
    decreases f, 0, |f.p| - i
  {
    hide FunctionBytes, LoadFunction, PartsOk;
    var q := if strip then Some(NO_SOURCE) else f.source;
    if i == |f.p| {
      assert ProtosBytes(f, i, strip) + rest == rest;
      assert acc + LoadedFrom(f, i, strip) == acc;
    } else {
      var more := ProtosBytes(f, i + 1, strip) + rest;
      assert ProtosBytes(f, i, strip) + rest == FunctionBytes(f.p[i], f.source, strip) + more;
      FunctionAt(f.p[i], f.source, q, strip, more, depth + 1);
      ProtosAt(f, i + 1, acc + [Loaded(f.p[i], strip)], strip, rest, depth);
      assert (acc + [Loaded(f.p[i], strip)]) + LoadedFrom(f, i + 1, strip) == acc + LoadedFrom(f, i, strip);
    }
  }

  /** The whole chunk. */
  lemma ChunkRound(f: Proto, strip: bool, rest: Str, depth: nat)
    requires Encodable(f, depth)
    ensures LoadChunk(ChunkBytes(f, strip) + rest, depth) == Ok(Loaded(f, strip), rest)
  {
    hide FunctionBytes, LoadFunction;
    assert ChunkBytes(f, strip) + rest == HEADER + (FunctionBytes(f, None, strip) + rest);
    BlockAt(HEADER, FunctionBytes(f, None, strip) + rest);
    FunctionAt(f, None, Some(NO_SOURCE), strip, rest, depth);
  }

  // ---- The bytes themselves ----------------------------------------------------------------

  /** The signature, version 5.1, format 0, least significant byte first, and the sizes of int, size_t,
      instructions and numbers, which are floating. */
  lemma HeaderMeaning(f: Proto, strip: bool)
    ensures ChunkBytes(f, strip) == [27, 76, 117, 97, 0x51, 0, 1, 4, 4, 4, 8, 0] + FunctionBytes(f, None, strip)
  {
  }

  /** A word, by its bytes. */
  lemma WordMeaning(b0: Byte, b1: Byte, b2: Byte, b3: Byte)
    ensures WordBytes(b0 + 0x100 * b1 + 0x1_0000 * b2 + 0x100_0000 * b3) == [b0, b1, b2, b3]
  {
    var x: Word := b0 + 0x100 * b1 + 0x1_0000 * b2 + 0x100_0000 * b3;
    Quotient(x, 0x100, b1 + 0x100 * b2 + 0x1_0000 * b3, b0);
    Quotient(x / 0x100, 0x100, b2 + 0x100 * b3, b1);
    Quotient(x, 0x1_0000, b2 + 0x100 * b3, b0 + 0x100 * b1);
    Quotient(x / 0x1_0000, 0x100, b3, b2);
    Quotient(x, 0x100_0000, b3, b0 + 0x100 * b1 + 0x1_0000 * b2);
  }

  /** Small numbers, strings and constants, byte by byte. */
  lemma ValueMeaning(n: Byte, s: Str, bits: Str, b: bool)
    requires |s| < 255
    ensures IntBytes(n) == [n, 0, 0, 0] && IntBytes(-1) == [255, 255, 255, 255]
    ensures StringBytes(None) == [0, 0, 0, 0] && StringBytes(Some(s)) == [|s| + 1, 0, 0, 0] + s + [0]
    ensures ConstBytes(KNil) == [0] && ConstBytes(KBool(b)) == [1, if b then 1 else 0]
    ensures ConstBytes(KNum(bits)) == [3] + bits && ConstBytes(KStr(s)) == [4] + ([|s| + 1, 0, 0, 0] + s + [0])
    ensures LocVarBytes(LocVar(Some(s), n, n + 1)) == [|s| + 1, 0, 0, 0] + s + [0] + [n, 0, 0, 0] + IntBytes(n + 1)
  {
    SmallInts();
    WordMeaning(255, 255, 255, 255);
    assert -1 % TWO32 == 255 + 0x100 * 255 + 0x1_0000 * 255 + 0x100_0000 * 255;
    assert |s| + 1 < 256;
  }

  /** A function with two instructions, two constants, a local variable and an upvalue, byte by byte:
      what luac writes, in its order. */
  lemma Layout(f: Proto, source: Str, w0: Word, w1: Word, k0: Const, k1: Const, line0: Byte, line1: Byte, v: LocVar, u: Option<Str>, from: Byte, to: Byte)
    requires f.source == Some(source) && f.code == [w0, w1] && f.k == [k0, k1] && f.p == [] && f.lineinfo == [line0, line1]
    requires f.locvars == [v] && f.upvalues == [u] && f.linedefined == from && f.lastlinedefined == to
    ensures FunctionBytes(f, None, false) ==
      (StringBytes(Some(source)) + [from, 0, 0, 0] + [to, 0, 0, 0] + [f.nups, f.numparams, f.isVararg, f.maxstacksize]) +
      ([2, 0, 0, 0] + WordBytes(w0) + WordBytes(w1)) + ([2, 0, 0, 0] + ConstBytes(k0) + ConstBytes(k1)) + [0, 0, 0, 0] +
      ([2, 0, 0, 0] + [line0, 0, 0, 0] + [line1, 0, 0, 0] + [1, 0, 0, 0] + LocVarBytes(v) + [1, 0, 0, 0] + StringBytes(u))
    ensures FunctionBytes(f, None, true) ==
      ([0, 0, 0, 0] + [from, 0, 0, 0] + [to, 0, 0, 0] + [f.nups, f.numparams, f.isVararg, f.maxstacksize]) +
      ([2, 0, 0, 0] + WordBytes(w0) + WordBytes(w1)) + ([2, 0, 0, 0] + ConstBytes(k0) + ConstBytes(k1)) + [0, 0, 0, 0] +
      ([0, 0, 0, 0] + [0, 0, 0, 0] + [0, 0, 0, 0])
  {
    HeadLayout(f, false, from, to);
    HeadLayout(f, true, from, to);
    CodeLayout(w0, w1);
    ConstsLayout(k0, k1);
    DebugLayout(f, line0, line1, v, u);
    SmallInts();
    hide HeadBytes, CodeBytes, DebugBytes, ConstBytes, Join, IntBytes, WordBytes, StringBytes, LocVarBytes;
    assert ProtosBytes(f, 0, false) == [] && ProtosBytes(f, 0, true) == [];
    assert IntBytes(0) + [] == [0, 0, 0, 0];
  }

  lemma SmallInts()
    ensures forall x: Byte :: IntBytes(x) == [x, 0, 0, 0]
  {
    forall x: Byte ensures IntBytes(x) == [x, 0, 0, 0] { WordMeaning(x, 0, 0, 0); }
  }

  lemma HeadLayout(f: Proto, strip: bool, from: Byte, to: Byte)
    requires f.source.Some? && f.linedefined == from && f.lastlinedefined == to
    ensures HeadBytes(f, None, strip) == (if strip then [0, 0, 0, 0] else StringBytes(f.source)) + [from, 0, 0, 0] + [to, 0, 0, 0] +
      [f.nups, f.numparams, f.isVararg, f.maxstacksize]
  {
    SmallInts();
    StringMeaning();
    hide StringBytes, IntBytes;
  }

  lemma CodeLayout(w0: Word, w1: Word)
    ensures CodeBytes([w0, w1]) == [2, 0, 0, 0] + WordBytes(w0) + WordBytes(w1)
  {
    SmallInts();
    JoinTwo(WordBytes, w0, w1);
    hide IntBytes, WordBytes, Join;
    assert IntBytes(2) == [2, 0, 0, 0];
  }

  lemma ConstsLayout(k0: Const, k1: Const)
    ensures IntBytes(2) + Join(ConstBytes, [k0, k1]) == [2, 0, 0, 0] + ConstBytes(k0) + ConstBytes(k1)
  {
    SmallInts();
    JoinTwo(ConstBytes, k0, k1);
    hide IntBytes, ConstBytes, Join;
    assert IntBytes(2) == [2, 0, 0, 0];
  }

  lemma DebugLayout(f: Proto, line0: Byte, line1: Byte, v: LocVar, u: Option<Str>)
    requires f.lineinfo == [line0, line1] && f.locvars == [v] && f.upvalues == [u]
    ensures DebugBytes(f, false) ==
      [2, 0, 0, 0] + [line0, 0, 0, 0] + [line1, 0, 0, 0] + [1, 0, 0, 0] + LocVarBytes(v) + [1, 0, 0, 0] + StringBytes(u)
    ensures DebugBytes(f, true) == [0, 0, 0, 0] + [0, 0, 0, 0] + [0, 0, 0, 0]
  {
    SmallInts();
    JoinTwo<int>(IntBytes, line0, line1);
    JoinOne(LocVarBytes, v);
    JoinOne(StringBytes, u);
    hide IntBytes, StringBytes, LocVarBytes, Join;
    var lines, vars, ups := Join(IntBytes, f.lineinfo), LocVarBytes(v), StringBytes(u);
    assert lines == [line0, 0, 0, 0] + [line1, 0, 0, 0];
    assert |f.lineinfo| == 2 && |f.locvars| == 1 && |f.upvalues| == 1;
    assert DebugBytes(f, false) == [2, 0, 0, 0] + lines + ([1, 0, 0, 0] + vars) + ([1, 0, 0, 0] + ups);
    assert DebugBytes(f, true) == IntBytes(0) + IntBytes(0) + IntBytes(0);
  }

  lemma StringMeaning()
    ensures StringBytes(None) == [0, 0, 0, 0]
  {
  }

  lemma JoinOne<T>(enc: T -> Str, x: T)
    ensures Join(enc, [x]) == enc(x)
  {
    assert [x][1..] == [];
  }

  lemma JoinTwo<T>(enc: T -> Str, x: T, y: T)
    ensures Join(enc, [x, y]) == enc(x) + enc(y)
  {
    assert [x, y][1..] == [y];
    JoinOne(enc, y);
  }

  /** The functions inside, in their order, each knowing the source of the one around it; one that
      has the same source writes none. */
  lemma NestedLayout(f: Proto, g: Proto, h: Proto, strip: bool)
    requires f.p == [g, h]
    ensures FunctionBytes(f, None, strip) == HeadBytes(f, None, strip) + CodeBytes(f.code) + (IntBytes(|f.k|) + Join(ConstBytes, f.k)) +
      ([2, 0, 0, 0] + (FunctionBytes(g, f.source, strip) + FunctionBytes(h, f.source, strip))) + DebugBytes(f, strip)
    ensures f.source == g.source ==> HeadBytes(g, f.source, strip)[..4] == [0, 0, 0, 0]
  {
    SmallInts();
    hide HeadBytes, CodeBytes, DebugBytes, Join, IntBytes;
    assert IntBytes(2) == [2, 0, 0, 0];
    NestedProtos(f, g, h, strip);
    NoSource(g, strip);
    FunctionParts(f, None, strip);
    hide ProtosBytes, FunctionBytes;
    assert |f.p| == 2 && IntBytes(|f.p|) == [2, 0, 0, 0];
  }

  lemma FunctionParts(f: Proto, p: Option<Str>, strip: bool)
    ensures FunctionBytes(f, p, strip) == HeadBytes(f, p, strip) + CodeBytes(f.code) + (IntBytes(|f.k|) + Join(ConstBytes, f.k)) +
      (IntBytes(|f.p|) + ProtosBytes(f, 0, strip)) + DebugBytes(f, strip)
  {
  }

  lemma NestedProtos(f: Proto, g: Proto, h: Proto, strip: bool)
    requires f.p == [g, h]
    ensures ProtosBytes(f, 0, strip) == FunctionBytes(g, f.source, strip) + FunctionBytes(h, f.source, strip)
  {
    hide FunctionBytes;
    assert ProtosBytes(f, 2, strip) == [];
    assert ProtosBytes(f, 1, strip) == FunctionBytes(h, f.source, strip) + ProtosBytes(f, 2, strip) == FunctionBytes(h, f.source, strip);
  }

  lemma NoSource(g: Proto, strip: bool)
    ensures HeadBytes(g, g.source, strip)[..4] == [0, 0, 0, 0]
  {
    StringMeaning();
    hide IntBytes, StringBytes;
    var tail := IntBytes(g.linedefined) + IntBytes(g.lastlinedefined) + [g.nups, g.numparams, g.isVararg, g.maxstacksize];
    assert HeadBytes(g, g.source, strip) == [0, 0, 0, 0] + tail;
  }

  /** What comes back, field by field. */
  lemma LoadedMeaning(f: Proto, strip: bool, i: nat)
    ensures !strip ==> Loaded(f, strip) == f
    ensures strip ==> var g := Loaded(f, strip);
      && g.code == f.code && g.k == f.k && g.linedefined == f.linedefined && g.lastlinedefined == f.lastlinedefined
      && g.nups == f.nups && g.numparams == f.numparams && g.isVararg == f.isVararg && g.maxstacksize == f.maxstacksize
      && g.source == Some([61, 63]) && g.lineinfo == [] && g.locvars == [] && g.upvalues == []
      && |g.p| == |f.p| && (i < |f.p| ==> g.p[i] == Loaded(f.p[i], strip))
  {
  }

  /** What may be written and read back: a function without functions inside that is well made, whose
      numbers fit, and whose constants are proper ones. */
  lemma EncodableMeaning(f: Proto, depth: nat)
    requires depth < 200 && Checker.WellMade(f) && f.source.Some? && |f.source.value| + 1 < 0x1_0000_0000
    requires 0 <= f.linedefined < 0x8000_0000 && 0 <= f.lastlinedefined < 0x8000_0000
    requires |f.code| < 0x8000_0000 && |f.k| < 0x8000_0000 && |f.p| < 0x8000_0000 && |f.locvars| < 0x8000_0000 && |f.upvalues| < 0x8000_0000
    requires forall c :: c in f.k ==> (c.KNum? ==> |c.bits| == 8) && (c.KStr? ==> |c.s| + 1 < 0x1_0000_0000)
    requires forall v :: v in f.locvars ==> 0 <= v.startpc < 0x8000_0000 && 0 <= v.endpc < 0x8000_0000 && (v.varname.Some? ==> |v.varname.value| + 1 < 0x1_0000_0000)
    requires forall u :: u in f.upvalues ==> u.Some? ==> |u.value| + 1 < 0x1_0000_0000
    requires forall x :: x in f.lineinfo ==> -0x8000_0000 <= x < 0x8000_0000
    requires forall i :: 0 <= i < |f.p| ==> Encodable(f.p[i], depth + 1)
    ensures Encodable(f, depth)
  {
    Checker.AcceptsWellMade(f);
    hide Checker.Accepts, Checker.WellMade;
    assert |f.lineinfo| in {0, |f.code|} by { Lines(f); }
  }

  lemma Lines(f: Proto)
    requires Checker.WellMade(f)
    ensures |f.lineinfo| in {0, |f.code|}
  {
  }

  // ---- What is refused ---------------------------------------------------------------------

  /** f and all functions inside are well made. */
  ghost predicate AllWellMade(f: Proto)
    decreases f
  {
    Checker.WellMade(f) && forall i :: 0 <= i < |f.p| ==> AllWellMade(f.p[i])
  }

  /** Whatever bytes a function has been loaded from: it is well made, and so are all inside of it. */
  lemma {:induction false} LoadedIsWellMade(bs: Str, p: Option<Str>, depth: nat)
    requires depth <= MAXCCALLS && LoadFunction(bs, p, depth).Ok?
    ensures AllWellMade(LoadFunction(bs, p, depth).value)
    decreases MAXCCALLS - depth, 0, 0
  {
    hide LoadHead, LoadList, LoadInt, LoadDebug, LoadConst, LoadWord, Checker.Accepts, Checker.WellMade;
    var h := LoadHead(bs, p);
    var code := LoadList(LoadWord, h.rest);
    var k := LoadList(LoadConst, code.rest);
    var n := LoadInt(k.rest);
    var ps := LoadProtos(n.value, [], n.rest, h.value.source, depth + 1);
    var f := LoadFunction(bs, p, depth).value;
    assert f.p == ps.value && Checker.Accepts(f);
    ProtosWellMade(n.value, [], n.rest, h.value.source, depth + 1);
    Checker.AcceptsWellMade(f);
  }

  lemma {:induction false} ProtosWellMade(n: nat, acc: seq<Proto>, bs: Str, source: Option<Str>, depth: nat)
    requires depth <= MAXCCALLS && LoadProtos(n, acc, bs, source, depth).Ok? && forall i :: 0 <= i < |acc| ==> AllWellMade(acc[i])
    ensures var ps := LoadProtos(n, acc, bs, source, depth).value; |ps| == |acc| + n && forall i :: 0 <= i < |ps| ==> AllWellMade(ps[i])
    decreases MAXCCALLS - depth, 1, n
  {
    hide LoadFunction, AllWellMade;
    if n > 0 {
      var f := LoadFunction(bs, source, depth);
      LoadedIsWellMade(bs, source, depth);
      ProtosWellMade(n - 1, acc + [f.value], f.rest, source, depth);
    }
  }

  /** Only what begins with the header of this platform is loaded, and only well-made code. */
  lemma ChunkChecked(bs: Str, depth: nat)
    requires depth <= MAXCCALLS && LoadChunk(bs, depth).Ok?
    ensures |bs| >= 12 && bs[..12] == [27, 76, 117, 97, 0x51, 0, 1, 4, 4, 4, 8, 0] && AllWellMade(LoadChunk(bs, depth).value)
  {
    hide LoadFunction, AllWellMade;
    LoadedIsWellMade(bs[12..], Some(NO_SOURCE), depth);
  }

  /** Negative counts, unknown kinds of constants and missing bytes are refused. */
  lemma ValuesChecked(bs: Str)
    ensures |bs| >= 4 && bs[3] >= 0x80 ==> LoadInt(bs) == Err(BadInteger)
    ensures |bs| < 4 ==> LoadInt(bs) == Err(UnexpectedEnd)
    ensures bs != [] && bs[0] !in {0, 1, 3, 4} ==> LoadConst(bs) == Err(BadConstant)
    ensures bs == [] ==> LoadConst(bs) == Err(UnexpectedEnd)
    ensures |bs| >= 4 && BytesWord(bs[..4]) > |bs| - 4 ==> LoadString(bs) == Err(UnexpectedEnd)
  {
  }
}
