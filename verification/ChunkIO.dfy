/** ldump.c and lundump.c: writing prototypes to a writer, and reading them from a stream. */
module ChunkIO {
  import opened Opcodes
  import opened LuaProto
  import opened ChunkFormat
  import opened Zio
  import Checker

  // ---- ldump.c -----------------------------------------------------------------------------

  /** What has been written, and the status the writer has returned. */
  datatype Sink = Sink(out: Str, status: int)

  /** As long as the writer reports no error all bytes reach it; after an error it is not called. */
  predicate Wrote(s: Sink, t: Sink, bytes: Str) {
    && (t.status == 0 ==> s.status == 0 && t.out == s.out + bytes)
    && (s.status != 0 ==> t == s)
  }

  lemma WroteBoth(s: Sink, t: Sink, u: Sink, a: Str, b: Str)
    requires Wrote(s, t, a) && Wrote(t, u, b)
    ensures Wrote(s, u, a + b)
  {
    assert (s.out + a) + b == s.out + (a + b);
  }

  lemma WroteNone(s: Sink)
    ensures Wrote(s, s, [])
  {
  }

  /** One more of the things that are dumped one after the other. */
  lemma JoinStep<T>(enc: T -> Str, xs: seq<T>, i: nat, done: Str)
    requires i < |xs| && done + Join(enc, xs[i..]) == Join(enc, xs)
    ensures (done + enc(xs[i])) + Join(enc, xs[i+1..]) == Join(enc, xs)
  {
    assert xs[i..][1..] == xs[i+1..];
    assert done + (enc(xs[i]) + Join(enc, xs[i+1..])) == (done + enc(xs[i])) + Join(enc, xs[i+1..]);
  }

  class DumpState {
    var sink: Sink
    const strip: bool
    /** What the writer answers to its next calls; 0 when there is no more. */
    var replies: seq<int>

    constructor (s: bool, answers: seq<int>)
      ensures sink == Sink([], 0) && strip == s && replies == answers
    {
      sink, strip, replies := Sink([], 0), s, answers;
    }

    method DumpBlock(b: Str)
      modifies this
      ensures Wrote(old(sink), sink, b)
      ensures old(replies) == [] ==> replies == [] && sink.status == old(sink).status
    {
      if sink.status == 0 {
        var status := if replies == [] then 0 else replies[0];
        if replies != [] { replies := replies[1..]; }
        sink := Sink(sink.out + b, status);
      }
    }

    method DumpChar(y: Byte)
      modifies this
      ensures Wrote(old(sink), sink, [y])
      ensures old(replies) == [] ==> replies == [] && sink.status == old(sink).status
    {
      DumpBlock([y]);
    }

    method DumpInt(x: int)
      modifies this
      ensures Wrote(old(sink), sink, IntBytes(x))
      ensures old(replies) == [] ==> replies == [] && sink.status == old(sink).status
    {
      DumpBlock(IntBytes(x));
    }

    method DumpString(s: Option<Str>)
      modifies this
      ensures Wrote(old(sink), sink, StringBytes(s))
      ensures old(replies) == [] ==> replies == [] && sink.status == old(sink).status
    {
      hide Wrote, IntBytes;
      match s
      case None => DumpInt(0);
      case Some(t) =>
        DumpInt(|t| + 1);
        ghost var mid := sink;
        DumpBlock(t + [0]);
        WroteBoth(old(sink), mid, sink, IntBytes(|t| + 1), t + [0]);
        assert IntBytes(|t| + 1) + (t + [0]) == StringBytes(s);
    }

    /** DumpVector, for words. */
    method DumpCode(code: seq<Word>)
      modifies this
      ensures Wrote(old(sink), sink, CodeBytes(code))
      ensures old(replies) == [] ==> replies == [] && sink.status == old(sink).status
    {
      hide Wrote, IntBytes, Join;
      DumpInt(|code|);
      ghost var mid := sink;
      DumpBlock(Join(WordBytes, code));
      WroteBoth(old(sink), mid, sink, IntBytes(|code|), Join(WordBytes, code));
    }

    method DumpConstant(c: Const)
      modifies this
      ensures Wrote(old(sink), sink, ConstBytes(c))
      ensures old(replies) == [] ==> replies == [] && sink.status == old(sink).status
    {
      hide Wrote, StringBytes;
      match c
      case KNil => DumpChar(0);
      case KBool(b) =>
        DumpChar(1);
        ghost var mid := sink;
        DumpChar(if b then 1 else 0);
        WroteBoth(old(sink), mid, sink, [1], [if b then 1 else 0]);
        assert [1] + [if b then 1 else 0] == ConstBytes(c);
      case KNum(bits) =>
        DumpChar(3);
        ghost var mid := sink;
        DumpBlock(bits);
        WroteBoth(old(sink), mid, sink, [3], bits);
      case KStr(s) =>
        DumpChar(4);
        ghost var mid := sink;
        DumpString(Some(s));
        WroteBoth(old(sink), mid, sink, [4], StringBytes(Some(s)));
    }

    /** DumpConstants, and the nested functions. */
    method DumpConstants(f: Proto)
      modifies this
      ensures Wrote(old(sink), sink, (IntBytes(|f.k|) + Join(ConstBytes, f.k)) + (IntBytes(|f.p|) + ProtosBytes(f, 0, strip)))
      ensures old(replies) == [] ==> replies == [] && sink.status == old(sink).status
      decreases f, 0
    {
      hide Wrote, IntBytes, ConstBytes, Join, ProtosBytes;
      DumpInt(|f.k|);
      ghost var done := IntBytes(|f.k|);
      ghost var consts: Str := [];
      var i := 0;
      assert f.k[0..] == f.k;
      assert done + consts == done;
      while i < |f.k|
        invariant 0 <= i <= |f.k| && Wrote(old(sink), sink, done + consts) && consts + Join(ConstBytes, f.k[i..]) == Join(ConstBytes, f.k)
        invariant old(replies) == [] ==> replies == [] && sink.status == old(sink).status
      {
        ghost var mid := sink;
        DumpConstant(f.k[i]);
        WroteBoth(old(sink), mid, sink, done + consts, ConstBytes(f.k[i]));
        JoinStep(ConstBytes, f.k, i, consts);
        assert (done + consts) + ConstBytes(f.k[i]) == done + (consts + ConstBytes(f.k[i]));
        consts := consts + ConstBytes(f.k[i]);
        i := i + 1;
      }
      JoinNone(ConstBytes, f.k, consts);
      done := done + consts;
      ghost var mid := sink;
      DumpInt(|f.p|);
      WroteBoth(old(sink), mid, sink, done, IntBytes(|f.p|));
      mid := sink;
      DumpProtos(f);
      WroteBoth(old(sink), mid, sink, done + IntBytes(|f.p|), ProtosBytes(f, 0, strip));
      assert (done + IntBytes(|f.p|)) + ProtosBytes(f, 0, strip) == done + (IntBytes(|f.p|) + ProtosBytes(f, 0, strip));
    }

    method DumpProtos(f: Proto)
      modifies this
      ensures Wrote(old(sink), sink, ProtosBytes(f, 0, strip))
      ensures old(replies) == [] ==> replies == [] && sink.status == old(sink).status
      decreases f, 0, 0
    {
      hide Wrote, FunctionBytes;
      ghost var done: Str := [];
      var i := 0;
      WroteNone(sink);
      while i < |f.p|
        invariant 0 <= i <= |f.p| && Wrote(old(sink), sink, done) && done + ProtosBytes(f, i, strip) == ProtosBytes(f, 0, strip)
        invariant old(replies) == [] ==> replies == [] && sink.status == old(sink).status
      {
        ghost var mid := sink;
        DumpFunction(f.p[i], f.source);
        WroteBoth(old(sink), mid, sink, done, FunctionBytes(f.p[i], f.source, strip));
        assert done + ProtosBytes(f, i, strip) == (done + FunctionBytes(f.p[i], f.source, strip)) + ProtosBytes(f, i + 1, strip);
        done := done + FunctionBytes(f.p[i], f.source, strip);
        i := i + 1;
      }
      assert ProtosBytes(f, i, strip) == [];
      assert done == ProtosBytes(f, 0, strip);
    }

    method DumpLocVar(v: LocVar)
      modifies this
      ensures Wrote(old(sink), sink, LocVarBytes(v))
      ensures old(replies) == [] ==> replies == [] && sink.status == old(sink).status
    {
      hide Wrote, StringBytes, IntBytes;
      DumpString(v.varname);
      ghost var mid := sink;
      DumpInt(v.startpc);
      WroteBoth(old(sink), mid, sink, StringBytes(v.varname), IntBytes(v.startpc));
      mid := sink;
      DumpInt(v.endpc);
      WroteBoth(old(sink), mid, sink, StringBytes(v.varname) + IntBytes(v.startpc), IntBytes(v.endpc));
    }

    /** The local variables of DumpDebug. */
    method DumpLocVars(vars: seq<LocVar>)
      modifies this
      ensures Wrote(old(sink), sink, IntBytes(|vars|) + Join(LocVarBytes, vars))
      ensures old(replies) == [] ==> replies == [] && sink.status == old(sink).status
    {
      hide Wrote, IntBytes, LocVarBytes, Join;
      DumpInt(|vars|);
      ghost var done: Str := [];
      var i := 0;
      assert vars[0..] == vars && IntBytes(|vars|) + done == IntBytes(|vars|);
      while i < |vars|
        invariant 0 <= i <= |vars| && Wrote(old(sink), sink, IntBytes(|vars|) + done) && done + Join(LocVarBytes, vars[i..]) == Join(LocVarBytes, vars)
        invariant old(replies) == [] ==> replies == [] && sink.status == old(sink).status
      {
        ghost var mid := sink;
        DumpLocVar(vars[i]);
        WroteBoth(old(sink), mid, sink, IntBytes(|vars|) + done, LocVarBytes(vars[i]));
        JoinStep(LocVarBytes, vars, i, done);
        assert (IntBytes(|vars|) + done) + LocVarBytes(vars[i]) == IntBytes(|vars|) + (done + LocVarBytes(vars[i]));
        done := done + LocVarBytes(vars[i]);
        i := i + 1;
      }
      JoinNone(LocVarBytes, vars, done);
    }

    /** The upvalue names of DumpDebug. */
    method DumpNames(names: seq<Option<Str>>)
      modifies this
      ensures Wrote(old(sink), sink, IntBytes(|names|) + Join(StringBytes, names))
      ensures old(replies) == [] ==> replies == [] && sink.status == old(sink).status
    {
      hide Wrote, IntBytes, StringBytes, Join;
      DumpInt(|names|);
      ghost var done: Str := [];
      var i := 0;
      assert names[0..] == names && IntBytes(|names|) + done == IntBytes(|names|);
      while i < |names|
        invariant 0 <= i <= |names| && Wrote(old(sink), sink, IntBytes(|names|) + done) && done + Join(StringBytes, names[i..]) == Join(StringBytes, names)
        invariant old(replies) == [] ==> replies == [] && sink.status == old(sink).status
      {
        ghost var mid := sink;
        DumpString(names[i]);
        WroteBoth(old(sink), mid, sink, IntBytes(|names|) + done, StringBytes(names[i]));
        JoinStep(StringBytes, names, i, done);
        assert (IntBytes(|names|) + done) + StringBytes(names[i]) == IntBytes(|names|) + (done + StringBytes(names[i]));
        done := done + StringBytes(names[i]);
        i := i + 1;
      }
      JoinNone(StringBytes, names, done);
    }

    method DumpDebug(f: Proto)
      modifies this
      ensures Wrote(old(sink), sink, DebugBytes(f, strip))
      ensures old(replies) == [] ==> replies == [] && sink.status == old(sink).status
    {
      hide Wrote, IntBytes, StringBytes, LocVarBytes;
      var lines := if strip then [] else f.lineinfo;
      DumpInt(|lines|);
      ghost var mid := sink;
      DumpBlock(Join(IntBytes, lines));
      WroteBoth(old(sink), mid, sink, IntBytes(|lines|), Join(IntBytes, lines));
      mid := sink;
      var vars := if strip then [] else f.locvars;
      DumpLocVars(vars);
      ghost var b := IntBytes(|lines|) + Join(IntBytes, lines);
      WroteBoth(old(sink), mid, sink, b, IntBytes(|vars|) + Join(LocVarBytes, vars));
      mid := sink;
      var names := if strip then [] else f.upvalues;
      DumpNames(names);
      b := b + (IntBytes(|vars|) + Join(LocVarBytes, vars));
      WroteBoth(old(sink), mid, sink, b, IntBytes(|names|) + Join(StringBytes, names));
      assert b + (IntBytes(|names|) + Join(StringBytes, names)) == DebugBytes(f, strip);
    }

    method DumpHead(f: Proto, p: Option<Str>)
      modifies this
      ensures Wrote(old(sink), sink, HeadBytes(f, p, strip))
      ensures old(replies) == [] ==> replies == [] && sink.status == old(sink).status
    {
      hide Wrote, IntBytes, StringBytes;
      var source := if f.source == p || strip then None else f.source;
      DumpString(source);
      ghost var mid, b := sink, StringBytes(source);
      DumpInt(f.linedefined);
      WroteBoth(old(sink), mid, sink, b, IntBytes(f.linedefined));
      mid, b := sink, b + IntBytes(f.linedefined);
      DumpInt(f.lastlinedefined);
      WroteBoth(old(sink), mid, sink, b, IntBytes(f.lastlinedefined));
      mid, b := sink, b + IntBytes(f.lastlinedefined);
      DumpChar(f.nups);
      WroteBoth(old(sink), mid, sink, b, [f.nups]);
      mid := sink;
      DumpChar(f.numparams);
      WroteBoth(old(sink), mid, sink, b + [f.nups], [f.numparams]);
      mid := sink;
      DumpChar(f.isVararg);
      WroteBoth(old(sink), mid, sink, b + [f.nups] + [f.numparams], [f.isVararg]);
      mid := sink;
      DumpChar(f.maxstacksize);
      WroteBoth(old(sink), mid, sink, b + [f.nups] + [f.numparams] + [f.isVararg], [f.maxstacksize]);
      assert b + [f.nups] + [f.numparams] + [f.isVararg] + [f.maxstacksize] == HeadBytes(f, p, strip);
    }

    method DumpFunction(f: Proto, p: Option<Str>)
      modifies this
      ensures Wrote(old(sink), sink, FunctionBytes(f, p, strip))
      ensures old(replies) == [] ==> replies == [] && sink.status == old(sink).status
      decreases f, 1
    {
      hide Wrote, HeadBytes, CodeBytes, IntBytes, ConstBytes, Join, ProtosBytes, DebugBytes;
      DumpHead(f, p);
      ghost var mid, b := sink, HeadBytes(f, p, strip);
      DumpCode(f.code);
      WroteBoth(old(sink), mid, sink, b, CodeBytes(f.code));
      mid, b := sink, b + CodeBytes(f.code);
      ghost var x, y := IntBytes(|f.k|) + Join(ConstBytes, f.k), IntBytes(|f.p|) + ProtosBytes(f, 0, strip);
      DumpConstants(f);
      WroteBoth(old(sink), mid, sink, b, x + y);
      mid := sink;
      DumpDebug(f);
      WroteBoth(old(sink), mid, sink, b + (x + y), DebugBytes(f, strip));
      assert b + (x + y) + DebugBytes(f, strip) == FunctionBytes(f, p, strip);
    }

    /** luaU_dump. */
    method Dump(f: Proto) returns (status: int)
      requires sink == Sink([], 0)
      modifies this
      ensures status == sink.status && (status == 0 ==> sink.out == ChunkBytes(f, strip))
      ensures old(replies) == [] ==> status == 0
    {
      hide FunctionBytes;
      DumpBlock(HEADER);
      ghost var mid := sink;
      DumpFunction(f, None);
      WroteBoth(old(sink), mid, sink, HEADER, FunctionBytes(f, None, strip));
      return sink.status;
    }
  }

  lemma JoinNone<T>(enc: T -> Str, xs: seq<T>, done: Str)
    requires done + Join(enc, xs[|xs|..]) == Join(enc, xs)
    ensures done == Join(enc, xs)
  {
    assert xs[|xs|..] == [];
  }

  // ---- lundump.c ---------------------------------------------------------------------------

  /** A value, or the error that is thrown. */
  datatype Out<+T> = Got(value: T) | Thrown(e: Error)

  /** The outcome is that of the format, and the stream stands behind the bytes of the value. */
  predicate Reads<T(==)>(r: Out<T>, load: Load<T>, now: Str) {
    match load
    case Err(e) => r == Thrown(e)
    case Ok(v, rest) => r == Got(v) && now == rest
  }

  class LoadState {
    const Z: ZIO
    var nCcalls: nat

    constructor (z: ZIO, calls: nat)
      ensures Z == z && nCcalls == calls
    {
      Z, nCcalls := z, calls;
    }

    method ReadBlock(n: nat) returns (r: Out<Str>)
      modifies Z
      ensures Reads(r, LoadBlock(old(Z.Content()), n), Z.Content())
    {
      var b, missing := Z.Read(n);
      if missing != 0 { return Thrown(UnexpectedEnd); }
      return Got(b);
    }

    method ReadByte() returns (r: Out<Byte>)
      modifies Z
      ensures Reads(r, LoadByte(old(Z.Content())), Z.Content())
    {
      var b := ReadBlock(1);
      match b
      case Thrown(e) => return Thrown(e);
      case Got(x) => return Got(x[0]);
    }

    method ReadWord() returns (r: Out<Word>)
      modifies Z
      ensures Reads(r, LoadWord(old(Z.Content())), Z.Content())
    {
      hide BytesWord;
      var b := ReadBlock(4);
      match b
      case Thrown(e) => return Thrown(e);
      case Got(x) => return Got(BytesWord(x));
    }

    method ReadInt() returns (r: Out<nat>)
      modifies Z
      ensures Reads(r, LoadInt(old(Z.Content())), Z.Content())
    {
      hide LoadWord;
      var w := ReadWord();
      match w
      case Thrown(e) => return Thrown(e);
      case Got(x) =>
        if Signed(x) < 0 { return Thrown(BadInteger); }
        return Got(Signed(x));
    }

    method ReadString() returns (r: Out<Option<Str>>)
      modifies Z
      ensures Reads(r, LoadString(old(Z.Content())), Z.Content())
    {
      hide LoadWord, LoadBlock;
      var w := ReadWord();
      match w
      case Thrown(e) => return Thrown(e);
      case Got(size) =>
        if size == 0 { return Got(None); }
        ghost var rest := Z.Content();
        var b := ReadBlock(size);
        match b
        case Thrown(e) => return Thrown(e);
        case Got(s) =>
          BlockSize(rest, size);
          return Got(Some(s[..size-1]));
    }

    method ReadConst() returns (r: Out<Const>)
      modifies Z
      ensures Reads(r, LoadConst(old(Z.Content())), Z.Content())
    {
      hide LoadByte, LoadBlock, LoadString;
      var t := ReadByte();
      if t.Thrown? { return Thrown(t.e); }
      if t.value == 0 {
        return Got(KNil);
      } else if t.value == 1 {
        var b := ReadByte();
        if b.Thrown? { return Thrown(b.e); }
        return Got(KBool(b.value != 0));
      } else if t.value == 3 {
        var bits := ReadBlock(8);
        if bits.Thrown? { return Thrown(bits.e); }
        return Got(KNum(bits.value));
      } else if t.value == 4 {
        var s := ReadString();
        if s.Thrown? { return Thrown(s.e); }
        if s.value == None { return Thrown(BadConstant); }
        return Got(KStr(s.value.value));
      } else {
        return Thrown(BadConstant);
      }
    }

    method ReadLocVar() returns (r: Out<LocVar>)
      modifies Z
      ensures Reads(r, LoadLocVar(old(Z.Content())), Z.Content())
    {
      hide LoadString, LoadInt;
      var name := ReadString();
      if name.Thrown? { return Thrown(name.e); }
      var start := ReadInt();
      if start.Thrown? { return Thrown(start.e); }
      var end := ReadInt();
      if end.Thrown? { return Thrown(end.e); }
      return Got(LocVar(name.value, start.value, end.value));
    }

    method ReadCode() returns (r: Out<seq<Word>>)
      modifies Z
      ensures Reads(r, LoadList(LoadWord, old(Z.Content())), Z.Content())
    {
      hide LoadInt, LoadWord;
      var n := ReadInt();
      if n.Thrown? { return Thrown(n.e); }
      ghost var start := Z.Content();
      var acc, i := [], 0;
      while i < n.value
        invariant 0 <= i <= n.value && LoadMany(LoadWord, n.value - i, acc, Z.Content()) == LoadMany(LoadWord, n.value, [], start)
      {
        var x := ReadWord();
        if x.Thrown? { return Thrown(x.e); }
        acc, i := acc + [x.value], i + 1;
      }
      return Got(acc);
    }

    method ReadConsts() returns (r: Out<seq<Const>>)
      modifies Z
      ensures Reads(r, LoadList(LoadConst, old(Z.Content())), Z.Content())
    {
      hide LoadInt, LoadConst;
      var n := ReadInt();
      if n.Thrown? { return Thrown(n.e); }
      ghost var start := Z.Content();
      var acc, i := [], 0;
      while i < n.value
        invariant 0 <= i <= n.value && LoadMany(LoadConst, n.value - i, acc, Z.Content()) == LoadMany(LoadConst, n.value, [], start)
      {
        var x := ReadConst();
        if x.Thrown? { return Thrown(x.e); }
        acc, i := acc + [x.value], i + 1;
      }
      return Got(acc);
    }

    method ReadLines() returns (r: Out<seq<int>>)
      modifies Z
      ensures Reads(r, LoadList(LoadLine, old(Z.Content())), Z.Content())
    {
      hide LoadInt, LoadWord;
      var n := ReadInt();
      if n.Thrown? { return Thrown(n.e); }
      ghost var start := Z.Content();
      var acc, i := [], 0;
      while i < n.value
        invariant 0 <= i <= n.value && LoadMany(LoadLine, n.value - i, acc, Z.Content()) == LoadMany(LoadLine, n.value, [], start)
      {
        var x := ReadWord();
        if x.Thrown? { return Thrown(x.e); }
        acc, i := acc + [Signed(x.value)], i + 1;
      }
      return Got(acc);
    }

    method ReadLocVars() returns (r: Out<seq<LocVar>>)
      modifies Z
      ensures Reads(r, LoadList(LoadLocVar, old(Z.Content())), Z.Content())
    {
      hide LoadInt, LoadLocVar;
      var n := ReadInt();
      if n.Thrown? { return Thrown(n.e); }
      ghost var start := Z.Content();
      var acc, i := [], 0;
      while i < n.value
        invariant 0 <= i <= n.value && LoadMany(LoadLocVar, n.value - i, acc, Z.Content()) == LoadMany(LoadLocVar, n.value, [], start)
      {
        var x := ReadLocVar();
        if x.Thrown? { return Thrown(x.e); }
        acc, i := acc + [x.value], i + 1;
      }
      return Got(acc);
    }

    method ReadNames() returns (r: Out<seq<Option<Str>>>)
      modifies Z
      ensures Reads(r, LoadList(LoadString, old(Z.Content())), Z.Content())
    {
      hide LoadInt, LoadString;
      var n := ReadInt();
      if n.Thrown? { return Thrown(n.e); }
      ghost var start := Z.Content();
      var acc, i := [], 0;
      while i < n.value
        invariant 0 <= i <= n.value && LoadMany(LoadString, n.value - i, acc, Z.Content()) == LoadMany(LoadString, n.value, [], start)
      {
        var x := ReadString();
        if x.Thrown? { return Thrown(x.e); }
        acc, i := acc + [x.value], i + 1;
      }
      return Got(acc);
    }

    method ReadDebug() returns (r: Out<Debug>)
      modifies Z
      ensures Reads(r, LoadDebug(old(Z.Content())), Z.Content())
    {
      hide LoadList;
      var lines := ReadLines();
      if lines.Thrown? { return Thrown(lines.e); }
      var vars := ReadLocVars();
      if vars.Thrown? { return Thrown(vars.e); }
      var names := ReadNames();
      if names.Thrown? { return Thrown(names.e); }
      return Got(Debug(lines.value, vars.value, names.value));
    }

    method ReadHead(p: Option<Str>) returns (r: Out<Head>)
      modifies Z
      ensures Reads(r, LoadHead(old(Z.Content()), p), Z.Content())
    {
      hide LoadString, LoadInt, LoadBlock;
      var source := ReadString();
      if source.Thrown? { return Thrown(source.e); }
      var line := ReadInt();
      if line.Thrown? { return Thrown(line.e); }
      var last := ReadInt();
      if last.Thrown? { return Thrown(last.e); }
      ghost var rest := Z.Content();
      var b := ReadBlock(4);
      BlockSize(rest, 4);
      if b.Thrown? { return Thrown(b.e); }
      return Got(Head(if source.value.None? then p else source.value, line.value, last.value, b.value[0], b.value[1], b.value[2], b.value[3]));
    }

    method ReadProtos(n: nat, source: Option<Str>) returns (r: Out<seq<Proto>>)
      requires nCcalls <= MAXCCALLS
      modifies Z, this
      ensures Reads(r, LoadProtos(n, [], old(Z.Content()), source, old(nCcalls)), Z.Content())
      ensures r.Got? ==> nCcalls == old(nCcalls)
      decreases MAXCCALLS - nCcalls, 1
    {
      hide LoadFunction;
      ghost var start := Z.Content();
      var acc, i := [], 0;
      while i < n
        invariant 0 <= i <= n && nCcalls == old(nCcalls)
        invariant LoadProtos(n - i, acc, Z.Content(), source, nCcalls) == LoadProtos(n, [], start, source, nCcalls)
      {
        var x := ReadFunction(source);
        if x.Thrown? { return Thrown(x.e); }
        acc, i := acc + [x.value], i + 1;
      }
      return Got(acc);
    }

    /** LoadFunction. */
    method ReadFunction(p: Option<Str>) returns (r: Out<Proto>)
      requires nCcalls <= MAXCCALLS
      modifies Z, this
      ensures Reads(r, LoadFunction(old(Z.Content()), p, old(nCcalls)), Z.Content())
      ensures r.Got? ==> nCcalls == old(nCcalls)
      decreases MAXCCALLS - nCcalls, 0
    {
      hide LoadHead, LoadList, LoadWord, LoadConst, LoadInt, LoadProtos, LoadDebug, Checker.Accepts;
      nCcalls := nCcalls + 1;
      if nCcalls > MAXCCALLS { return Thrown(TooDeep); }
      var h := ReadHead(p);
      if h.Thrown? { return Thrown(h.e); }
      var code := ReadCode();
      if code.Thrown? { return Thrown(code.e); }
      var k := ReadConsts();
      if k.Thrown? { return Thrown(k.e); }
      var n := ReadInt();
      if n.Thrown? { return Thrown(n.e); }
      var ps := ReadProtos(n.value, h.value.source);
      if ps.Thrown? { return Thrown(ps.e); }
      var d := ReadDebug();
      if d.Thrown? { return Thrown(d.e); }
      var f := Assembled(h.value, code.value, k.value, ps.value, d.value);
      var ok := Checker.CheckCode(f);
      if !ok { return Thrown(BadCode); }
      nCcalls := nCcalls - 1;
      return Got(f);
    }

    /** luaU_undump. */
    method Undump() returns (r: Out<Proto>)
      requires nCcalls <= MAXCCALLS
      modifies Z, this
      ensures Reads(r, LoadChunk(old(Z.Content()), old(nCcalls)), Z.Content())
      ensures r.Got? ==> nCcalls == old(nCcalls)
    {
      hide LoadFunction, LoadBlock;
      var h := ReadBlock(|HEADER|);
      if h.Thrown? { return Thrown(h.e); }
      if h.value != HEADER { return Thrown(BadHeader); }
      r := ReadFunction(Some(NO_SOURCE));
    }
  }

  lemma BlockSize(bs: Str, n: nat)
    ensures LoadBlock(bs, n).Ok? ==> |LoadBlock(bs, n).value| == n
  {
  }

  /** The pieces in which a reader delivers these bytes: the sizes it chooses, as long as they are
      possible, and then all the rest. */
  function Cut(bs: Str, sizes: seq<nat>): seq<Str>
    decreases |bs|
  {
    if bs == [] then []
    else
      var n := if sizes != [] && 0 < sizes[0] < |bs| then sizes[0] else |bs|;
      [bs[..n]] + Cut(bs[n..], if sizes == [] then [] else sizes[1..])
  }

  lemma {:induction false} CutDelivers(bs: Str, sizes: seq<nat>)
    ensures Delivered(Cut(bs, sizes)) == bs
    decreases |bs|
  {
    if bs != [] {
      var n := if sizes != [] && 0 < sizes[0] < |bs| then sizes[0] else |bs|;
      CutDelivers(bs[n..], if sizes == [] then [] else sizes[1..]);
      assert bs == bs[..n] + bs[n..];
    }
  }

  /** Every way to deliver some bytes is one of these. */
  lemma {:induction false} EveryCut(pieces: seq<Str>) returns (sizes: seq<nat>)
    requires forall i :: 0 <= i < |pieces| ==> pieces[i] != []
    ensures Cut(Delivered(pieces), sizes) == pieces
    decreases |pieces|
  {
    sizes := [];
    if pieces != [] {
      var more := EveryCut(pieces[1..]);
      sizes := [|pieces[0]|] + more;
      var bs := Delivered(pieces);
      assert bs == pieces[0] + Delivered(pieces[1..]);
      assert bs[..|pieces[0]|] == pieces[0] && bs[|pieces[0]|..] == Delivered(pieces[1..]);
      if |pieces| > 1 { assert pieces[1..][0] == pieces[1] && Delivered(pieces[1..]) != []; }
      assert sizes[1..] == more;
    }
  }

  /** Dumping a function and undumping what has been written, whatever pieces the reader splits the
      bytes into: unless the writer has reported an error the same prototype comes back, and what
      follows the chunk is still to be read. */
  method DumpThenUndump(f: Proto, strip: bool, answers: seq<int>, rest: Str, sizes: seq<nat>, calls: nat)
    returns (status: int, r: Out<Proto>, z: ZIO)
    requires Encodable(f, calls)
    ensures answers == [] ==> status == 0
    ensures status == 0 ==> r == Got(Loaded(f, strip)) && z.Content() == rest
  {
    var D := new DumpState(strip, answers);
    status := D.Dump(f);
    CutDelivers(D.sink.out + rest, sizes);
    z := new ZIO(Cut(D.sink.out + rest, sizes));
    var S := new LoadState(z, calls);
    ChunkRound(f, strip, rest, calls);
    r := S.Undump();
  }
}
