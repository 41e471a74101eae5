/** subexpr of lparser.c: operators, their priorities and the trees that are read. */
module Precedence {

  datatype BinOp = Add | Sub | Mul | Div | Mod | Pow | Concat | Ne | Eq | Lt | Le | Gt | Ge | And | Or

  datatype UnOp = Not | Minus | Len

  /** A token; the minus sign is a binary operator or, where an operand is expected, a unary one. */
  datatype Token = Name(id: int) | Sym(op: BinOp) | NotSym | LenSym | LPar | RPar

  datatype Tree = Atom(id: int) | Un(u: UnOp, e: Tree) | Bin(b: BinOp, l: Tree, r: Tree)

  const UNARY_PRIORITY: nat := 8

  /** The left and right priorities of the binary operators. */
  function Left(op: BinOp): nat {
    match op
    case Add => 6 case Sub => 6 case Mul => 7 case Div => 7 case Mod => 7
    case Pow => 10 case Concat => 5
    case Ne => 3 case Eq => 3 case Lt => 3 case Le => 3 case Gt => 3 case Ge => 3
    case And => 2 case Or => 1
  }

  function Right(op: BinOp): nat {
    match op
    case Pow => 9
    case Concat => 4
    case _ => Left(op)
  }

  function GetUnOpr(t: Token): (r: seq<UnOp>)
    ensures |r| <= 1
  {
    match t
    case NotSym => [Not]
    case LenSym => [Len]
    case Sym(Sub) => [Minus]
    case _ => []
  }

  function UnToken(u: UnOp): Token {
    match u case Not => NotSym case Minus => Sym(Sub) case Len => LenSym
  }

  /** How a tree is read: the tree and the tokens behind it, or an error. */
  datatype Read = Ok(t: Tree, rest: seq<Token>) | Unexpected

  // ---- The grammar -------------------------------------------------------------------------

  /** subexpr, for operators of a priority above `limit`. */
  function SubExpr(toks: seq<Token>, limit: nat): (r: Read)
    ensures r.Ok? ==> |r.rest| < |toks|
    decreases |toks|, 2
  {
    match Operand(toks)
    case Unexpected => Unexpected
    case Ok(v, rest) => More(v, rest, limit)
  }

  /** A unary operator and its operand, or a simple expression. */
  function Operand(toks: seq<Token>): (r: Read)
    ensures r.Ok? ==> |r.rest| < |toks|
    decreases |toks|, 1
  {
    if toks == [] then Unexpected
    else if GetUnOpr(toks[0]) != [] then
      (match SubExpr(toks[1..], UNARY_PRIORITY)
       case Unexpected => Unexpected
       case Ok(e, rest) => Ok(Un(GetUnOpr(toks[0])[0], e), rest))
    else SimpleExpr(toks)
  }

  /** A name, or an expression in parentheses. */
  function SimpleExpr(toks: seq<Token>): (r: Read)
    requires toks != []
    ensures r.Ok? ==> |r.rest| < |toks|
    decreases |toks|, 0
  {
    match toks[0]
    case Name(id) => Ok(Atom(id), toks[1..])
    case LPar =>
      (match SubExpr(toks[1..], 0)
       case Unexpected => Unexpected
       case Ok(v, rest) => if rest != [] && rest[0] == RPar then Ok(v, rest[1..]) else Unexpected)
    case _ => Unexpected
  }

  /** The operators that follow an operand that has been read. */
  function More(v: Tree, toks: seq<Token>, limit: nat): (r: Read)
    ensures r.Ok? ==> |r.rest| <= |toks|
    decreases |toks|, 3
  {
    if toks != [] && toks[0].Sym? && Left(toks[0].op) > limit then
      match SubExpr(toks[1..], Right(toks[0].op))
      case Unexpected => Unexpected
      case Ok(v2, rest) => More(Bin(toks[0].op, v, v2), rest, limit)
    else Ok(v, toks)
  }

  // ---- The parser --------------------------------------------------------------------------

  class Parser {
    const toks: seq<Token>
    var pos: nat

    ghost predicate Valid()
      reads this
    {
      pos <= |toks|
    }

    constructor (input: seq<Token>)
      ensures Valid() && toks == input && pos == 0
    {
      toks, pos := input, 0;
    }

    /** simpleexp. */
    method Simple() returns (ok: bool, v: Tree)
      requires Valid() && pos < |toks|
      modifies this
      ensures Valid() && pos >= old(pos)
      ensures var r := SimpleExpr(toks[old(pos)..]); ok == r.Ok? && (ok ==> r == Ok(v, toks[pos..]) && pos > old(pos))
      decreases |toks| - pos, 0
    {
      ghost var was := toks[pos..];
      match toks[pos]
      case Name(id) =>
        assert was[1..] == toks[pos+1..];
        pos := pos + 1;
        return true, Atom(id);
      case LPar =>
        assert was[1..] == toks[pos+1..];
        pos := pos + 1;
        var op;
        ok, v, op := Subexpr(0);
        if !ok { return false, v; }
        if pos < |toks| && toks[pos] == RPar {
          assert toks[pos..][1..] == toks[pos+1..];
          pos := pos + 1;
          return true, v;
        }
        return false, v;
      case _ => return false, Atom(0);
    }

    /** The operator that a token is, if it is one. */
    method GetBinOpr() returns (op: seq<BinOp>)
      requires Valid()
      ensures op == if pos < |toks| && toks[pos].Sym? then [toks[pos].op] else []
    {
      return if pos < |toks| && toks[pos].Sym? then [toks[pos].op] else [];
    }

    /** subexpr: also returns the first operator that has not been treated. */
    method Subexpr(limit: nat) returns (ok: bool, v: Tree, op: seq<BinOp>)
      requires Valid()
      modifies this
      ensures Valid() && pos >= old(pos)
      ensures var r := SubExpr(toks[old(pos)..], limit); ok == r.Ok? && (ok ==> r == Ok(v, toks[pos..]) && pos > old(pos))
      ensures ok ==> op == if pos < |toks| && toks[pos].Sym? then [toks[pos].op] else []
      decreases |toks| - pos, 2
    {
      hide SubExpr, Operand, More;
      op := [];
      ghost var start, was := pos, toks[pos..];
      ok, v := ReadOperand();
      SubStart(was, limit);
      if !ok { return; }
      op := GetBinOpr();
      while op != [] && Left(op[0]) > limit
        invariant Valid() && pos > start && op == (if pos < |toks| && toks[pos].Sym? then [toks[pos].op] else [])
        invariant More(v, toks[pos..], limit) == SubExpr(was, limit)
        decreases |toks| - pos
      {
        MoreStep(v, toks[pos..], limit);
        assert toks[pos..][1..] == toks[pos+1..];
        pos := pos + 1;
        var v2, nextop;
        ok, v2, nextop := Subexpr(Right(op[0]));
        if !ok { return; }
        v := Bin(op[0], v, v2);
        op := nextop;
      }
      MoreStep(v, toks[pos..], limit);
      ok := true;
    }

    /** The beginning of subexpr. */
    method ReadOperand() returns (ok: bool, v: Tree)
      requires Valid()
      modifies this
      ensures Valid() && pos >= old(pos)
      ensures var r := Operand(toks[old(pos)..]); ok == r.Ok? && (ok ==> r == Ok(v, toks[pos..]) && pos > old(pos))
      decreases |toks| - pos, 1
    {
      hide SubExpr, SimpleExpr;
      v := Atom(0);
      if pos == |toks| { return false, v; }
      ghost var was := toks[pos..];
      var uop := GetUnOpr(toks[pos]);
      if uop != [] {
        assert was[1..] == toks[pos+1..];
        pos := pos + 1;
        var op;
        ok, v, op := Subexpr(UNARY_PRIORITY);
        if !ok { return; }
        v := Un(uop[0], v);
      } else {
        ok, v := Simple();
      }
    }
  }

  lemma SubStart(toks: seq<Token>, limit: nat)
    ensures SubExpr(toks, limit) == match Operand(toks) case Unexpected => Unexpected case Ok(v, rest) => More(v, rest, limit)
  {
  }

  lemma MoreStep(v: Tree, toks: seq<Token>, limit: nat)
    ensures More(v, toks, limit) ==
      if toks != [] && toks[0].Sym? && Left(toks[0].op) > limit then
        (match SubExpr(toks[1..], Right(toks[0].op)) case Unexpected => Unexpected case Ok(v2, rest) => More(Bin(toks[0].op, v, v2), rest, limit))
      else Ok(v, toks)
  {
  }

  // ---- Printing ----------------------------------------------------------------------------

  /** The parentheses a tree needs where operators above `limit` are read and an operator of the
      left priority `next` follows. */
  predicate NeedsParens(t: Tree, limit: nat, next: nat) {
    match t
    case Atom(_) => false
    case Un(_, _) => next > UNARY_PRIORITY
    case Bin(op, _, _) => Left(op) <= limit || next > Right(op)
  }

  function Print(t: Tree, limit: nat, next: nat): (r: seq<Token>)
    ensures r != []
    decreases t, if NeedsParens(t, limit, next) then 1 else 0
  {
    if NeedsParens(t, limit, next) then [LPar] + Print(t, 0, 0) + [RPar]
    else match t
      case Atom(id) => [Name(id)]
      case Un(u, e) => [UnToken(u)] + Print(e, UNARY_PRIORITY, next)
      case Bin(op, l, r) => Print(l, limit, Left(op)) + [Sym(op)] + Print(r, Right(op), next)
  }

  /** The left priority of the operator that comes next, 0 if none does. */
  function NextPriority(toks: seq<Token>): nat {
    if toks != [] && toks[0].Sym? then Left(toks[0].op) else 0
  }

  /** An expression in parentheses is read as an operand, whatever follows. */
  lemma ParenRead(t: Tree, inner: seq<Token>, rest: seq<Token>, limit: nat)
    requires SubExpr(inner, 0) == Ok(t, [RPar] + rest)
    ensures SubExpr([LPar] + inner, limit) == More(t, rest, limit)
  {
    hide SubExpr, More;
    var toks := [LPar] + inner;
    assert toks[0] == LPar && toks[1..] == inner && ([RPar] + rest)[1..] == rest;
    assert SimpleExpr(toks) == Ok(t, rest);
    assert Operand(toks) == SimpleExpr(toks);
    SubStart(toks, limit);
  }

  /** A printed tree is read up to its end, and then the operators behind it. */
  lemma {:induction false} PrintRead(t: Tree, limit: nat, next: nat, rest: seq<Token>)
    requires NextPriority(rest) <= next
    ensures SubExpr(Print(t, limit, next) + rest, limit) == More(t, rest, limit)
    decreases t, if NeedsParens(t, limit, next) then 1 else 0
  {
    var toks := Print(t, limit, next) + rest;
    if NeedsParens(t, limit, next) {
      hide SubExpr, More, Operand, SimpleExpr;
      var inner := Print(t, 0, 0) + ([RPar] + rest);
      assert toks == [LPar] + inner;
      PrintRead(t, 0, 0, [RPar] + rest);
      MoreStep(t, [RPar] + rest, 0);
      ParenRead(t, inner, rest, limit);
    } else {
      match t
      case Atom(id) =>
        assert toks[0] == Name(id) && toks[1..] == rest;
        assert Operand(toks) == SimpleExpr(toks) == Ok(t, rest);
        SubStart(toks, limit);
      case Un(u, e) =>
        assert toks == [UnToken(u)] + (Print(e, UNARY_PRIORITY, next) + rest);
        PrintRead(e, UNARY_PRIORITY, next, rest);
        UnaryRead(u, e, toks, rest, limit);
      case Bin(op, l, r) =>
        hide SubExpr, More, Operand, SimpleExpr;
        var more := [Sym(op)] + (Print(r, Right(op), next) + rest);
        assert toks == Print(l, limit, Left(op)) + more;
        PrintRead(l, limit, Left(op), more);
        assert more[1..] == Print(r, Right(op), next) + rest;
        PrintRead(r, Right(op), next, rest);
        MoreStep(l, more, limit);
        MoreStep(r, rest, Right(op));
    }
  }

  /** A unary operator before what is read as its operand. */
  lemma UnaryRead(u: UnOp, e: Tree, toks: seq<Token>, rest: seq<Token>, limit: nat)
    requires toks != [] && toks[0] == UnToken(u) && SubExpr(toks[1..], UNARY_PRIORITY) == More(e, rest, UNARY_PRIORITY)
    requires NextPriority(rest) <= UNARY_PRIORITY
    ensures SubExpr(toks, limit) == More(Un(u, e), rest, limit)
  {
    hide SubExpr, More;
    MoreStep(e, rest, UNARY_PRIORITY);
    assert GetUnOpr(toks[0]) == [u];
    SubStart(toks, limit);
  }

  /** expr reads back every tree that has been printed. */
  lemma RoundTrip(t: Tree)
    ensures SubExpr(Print(t, 0, 0), 0) == Ok(t, [])
  {
    PrintRead(t, 0, 0, []);
    assert Print(t, 0, 0) + [] == Print(t, 0, 0);
  }

  predicate NoParens(toks: seq<Token>) { LPar !in toks && RPar !in toks }

  /** subexpr stops at an operator that is not above the limit. */
  lemma {:induction false} MoreStops(v: Tree, toks: seq<Token>, limit: nat)
    ensures More(v, toks, limit).Ok? ==> NextPriority(More(v, toks, limit).rest) <= limit
    decreases |toks|
  {
    if toks != [] && toks[0].Sym? && Left(toks[0].op) > limit {
      var r := SubExpr(toks[1..], Right(toks[0].op));
      if r.Ok? { MoreStops(Bin(toks[0].op, v, r.t), r.rest, limit); }
    }
  }

  lemma SubStops(toks: seq<Token>, limit: nat)
    ensures SubExpr(toks, limit).Ok? ==> NextPriority(SubExpr(toks, limit).rest) <= limit
  {
    if toks != [] {
      if GetUnOpr(toks[0]) != [] {
        var r := SubExpr(toks[1..], UNARY_PRIORITY);
        if r.Ok? { MoreStops(Un(GetUnOpr(toks[0])[0], r.t), r.rest, limit); }
      } else {
        var r := SimpleExpr(toks);
        if r.Ok? { MoreStops(r.t, r.rest, limit); }
      }
    }
  }

  /** Only the parentheses that are needed are printed: what was read without any is printed
      without any, token by token. */
  lemma {:induction false} ReadPrint(toks: seq<Token>, limit: nat)
    requires NoParens(toks) && SubExpr(toks, limit).Ok?
    ensures var r := SubExpr(toks, limit); toks == Print(r.t, limit, NextPriority(r.rest)) + r.rest && NoParens(r.rest)
    decreases |toks|, 1
  {
    assert toks == [toks[0]] + toks[1..];
    if GetUnOpr(toks[0]) != [] {
      var u := GetUnOpr(toks[0])[0];
      ReadPrint(toks[1..], UNARY_PRIORITY);
      SubStops(toks[1..], UNARY_PRIORITY);
      var r := SubExpr(toks[1..], UNARY_PRIORITY);
      assert UnToken(u) == toks[0];
      assert toks == Print(Un(u, r.t), limit, NextPriority(r.rest)) + r.rest;
      MorePrint(Un(u, r.t), toks, r.rest, limit);
    } else {
      var r := SimpleExpr(toks);
      assert toks == Print(r.t, limit, NextPriority(r.rest)) + r.rest;
      MorePrint(r.t, toks, r.rest, limit);
    }
  }

  lemma {:induction false} MorePrint(v: Tree, all: seq<Token>, toks: seq<Token>, limit: nat)
    requires NoParens(toks) && |toks| < |all| && all == Print(v, limit, NextPriority(toks)) + toks && More(v, toks, limit).Ok?
    ensures var r := More(v, toks, limit); all == Print(r.t, limit, NextPriority(r.rest)) + r.rest && NoParens(r.rest)
    decreases |toks|, 0
  {
    if toks != [] && toks[0].Sym? && Left(toks[0].op) > limit {
      var op := toks[0].op;
      assert toks == [Sym(op)] + toks[1..];
      ReadPrint(toks[1..], Right(op));
      SubStops(toks[1..], Right(op));
      var r := SubExpr(toks[1..], Right(op));
      var t := Bin(op, v, r.t);
      var n := NextPriority(r.rest);
      assert all == Print(v, limit, Left(op)) + [Sym(op)] + Print(r.t, Right(op), n) + r.rest;
      assert Print(t, limit, n) == Print(v, limit, Left(op)) + [Sym(op)] + Print(r.t, Right(op), n);
      MorePrint(t, all, r.rest, limit);
    }
  }

  /** Two operators in a row: the second binds to the operand between them if its left priority is
      above the right priority of the first; so `^` and `..` associate to the right, all others to
      the left. */
  lemma TwoOperators(o1: BinOp, o2: BinOp, x: int, y: int, z: int)
    ensures SubExpr([Name(x), Sym(o1), Name(y), Sym(o2), Name(z)], 0) ==
      Ok(if Left(o2) > Right(o1) then Bin(o1, Atom(x), Bin(o2, Atom(y), Atom(z))) else Bin(o2, Bin(o1, Atom(x), Atom(y)), Atom(z)), [])
  {
    var t := if Left(o2) > Right(o1) then Bin(o1, Atom(x), Bin(o2, Atom(y), Atom(z))) else Bin(o2, Bin(o1, Atom(x), Atom(y)), Atom(z));
    assert Left(o1) > 0 && Left(o2) > 0;
    var right := Left(o2) > Right(o1);
    assert Print(Atom(x), 0, Left(o1)) == [Name(x)] && Print(Atom(y), Right(o1), 0) == [Name(y)];
    assert right ==> Print(Bin(o2, Atom(y), Atom(z)), Right(o1), 0) == [Name(y)] + [Sym(o2)] + [Name(z)];
    assert !right ==> Print(Bin(o1, Atom(x), Atom(y)), 0, Left(o2)) == [Name(x)] + [Sym(o1)] + [Name(y)];
    assert Print(t, 0, 0) == [Name(x), Sym(o1), Name(y), Sym(o2), Name(z)];
    RoundTrip(t);
  }

  lemma GroupPriority(op: BinOp, g: nat)
    requires var groups := [{Or}, {And}, {Lt, Gt, Le, Ge, Ne, Eq}, {Concat}, {BinOp.Add, BinOp.Sub}, {Mul, Div, Mod}, {Pow}];
      g < |groups| && op in groups[g]
    ensures Left(op) == [1, 2, 3, 5, 6, 7, 10][g] && Right(op) == [1, 2, 3, 4, 6, 7, 9][g]
  {
  }

  /** The groups of section 2.5.6 of the reference manual, lowest first: of two operators of
      different groups the one of the higher group binds first. Inside a group the reading is to
      the left, and to the right for `..` and `^`, the groups 3 and 6. */
  lemma ManualOrder(o1: BinOp, o2: BinOp, g: nat, h: nat, x: int, y: int, z: int)
    requires var groups := [{Or}, {And}, {Lt, Gt, Le, Ge, Ne, Eq}, {Concat}, {BinOp.Add, BinOp.Sub}, {Mul, Div, Mod}, {Pow}];
      g < |groups| && h < |groups| && o1 in groups[g] && o2 in groups[h]
    ensures SubExpr([Name(x), Sym(o1), Name(y), Sym(o2), Name(z)], 0) ==
      Ok(if g < h || (g == h && g in {3, 6}) then Bin(o1, Atom(x), Bin(o2, Atom(y), Atom(z)))
         else Bin(o2, Bin(o1, Atom(x), Atom(y)), Atom(z)), [])
  {
    hide SubExpr;
    TwoOperators(o1, o2, x, y, z);
    GroupPriority(o1, g);
    GroupPriority(o2, h);
  }

  /** A unary operator, written `not`, `#` or `-`, binds tighter than all binary ones but `^`. */
  lemma UnaryThenBinary(u: UnOp, tok: Token, op: BinOp, x: int, y: int)
    requires (tok, u) in {(NotSym, Not), (LenSym, Len), (Sym(BinOp.Sub), Minus)}
    ensures SubExpr([tok, Name(x), Sym(op), Name(y)], 0) ==
      Ok(if op == Pow then Un(u, Bin(Pow, Atom(x), Atom(y))) else Bin(op, Un(u, Atom(x)), Atom(y)), [])
  {
    var t := if op == Pow then Un(u, Bin(Pow, Atom(x), Atom(y))) else Bin(op, Un(u, Atom(x)), Atom(y));
    assert UnToken(u) == tok;
    assert op == Pow ==> Print(Bin(Pow, Atom(x), Atom(y)), UNARY_PRIORITY, 0) == [Name(x)] + [Sym(Pow)] + [Name(y)];
    assert op != Pow ==> Print(Un(u, Atom(x)), 0, Left(op)) == [tok] + [Name(x)];
    assert Print(t, 0, 0) == [tok, Name(x), Sym(op), Name(y)];
    RoundTrip(t);
  }

  /** A binary operator takes a unary operand to its right, whatever its priority. */
  lemma BinaryThenUnary(u: UnOp, tok: Token, op: BinOp, x: int, y: int)
    requires (tok, u) in {(NotSym, Not), (LenSym, Len), (Sym(BinOp.Sub), Minus)}
    ensures SubExpr([Name(x), Sym(op), tok, Name(y)], 0) == Ok(Bin(op, Atom(x), Un(u, Atom(y))), [])
  {
    var t := Bin(op, Atom(x), Un(u, Atom(y)));
    assert UnToken(u) == tok;
    assert Print(Un(u, Atom(y)), Right(op), 0) == [tok] + [Name(y)] && Print(Atom(x), 0, Left(op)) == [Name(x)];
    assert Print(t, 0, 0) == [Name(x), Sym(op), tok, Name(y)];
    RoundTrip(t);
  }

  /** One operation in parentheses, whatever follows. */
  lemma InParens(op: BinOp, x: int, y: int, rest: seq<Token>, limit: nat)
    ensures SubExpr([LPar, Name(x), Sym(op), Name(y), RPar] + rest, limit) == More(Bin(op, Atom(x), Atom(y)), rest, limit)
  {
    hide SubExpr, More;
    var t := Bin(op, Atom(x), Atom(y));
    var inner := [Name(x), Sym(op), Name(y)] + ([RPar] + rest);
    assert Print(t, 0, 0) == [Name(x)] + [Sym(op)] + [Name(y)];
    PrintRead(t, 0, 0, [RPar] + rest);
    MoreStep(t, [RPar] + rest, 0);
    assert inner == Print(t, 0, 0) + ([RPar] + rest) && ([RPar] + rest)[0] == RPar;
    ParenRead(t, inner, rest, limit);
    assert [LPar] + inner == [LPar, Name(x), Sym(op), Name(y), RPar] + rest;
  }

  /** Parentheses override everything: what stands in them is one operand. */
  lemma Parenthesised(o1: BinOp, o2: BinOp, x: int, y: int, z: int)
    ensures SubExpr([Name(x), Sym(o1), LPar, Name(y), Sym(o2), Name(z), RPar], 0) == Ok(Bin(o1, Atom(x), Bin(o2, Atom(y), Atom(z))), [])
    ensures SubExpr([LPar, Name(x), Sym(o1), Name(y), RPar, Sym(o2), Name(z)], 0) == Ok(Bin(o2, Bin(o1, Atom(x), Atom(y)), Atom(z)), [])
  {
    var t1, t2 := Bin(o2, Atom(y), Atom(z)), Bin(o1, Atom(x), Atom(y));
    var all1, all2 := [Name(x), Sym(o1), LPar, Name(y), Sym(o2), Name(z), RPar], [LPar, Name(x), Sym(o1), Name(y), RPar, Sym(o2), Name(z)];
    InParens(o2, y, z, [], Right(o1));
    assert all1[2..] == [LPar, Name(y), Sym(o2), Name(z), RPar] + [];
    PrintRead(Atom(x), 0, Left(o1), all1[1..]);
    assert all1 == Print(Atom(x), 0, Left(o1)) + all1[1..] && all1[1..][1..] == all1[2..];
    InParens(o1, x, y, [Sym(o2), Name(z)], 0);
    assert all2 == [LPar, Name(x), Sym(o1), Name(y), RPar] + [Sym(o2), Name(z)];
    PrintRead(Atom(z), Right(o2), 0, []);
    assert [Sym(o2), Name(z)][1..] == Print(Atom(z), Right(o2), 0) + [];
  }

  // ---- Nothing is lost ---------------------------------------------------------------------

  /** The tokens of a tree in their order, without parentheses. */
  function Flat(t: Tree): seq<Token> {
    match t
    case Atom(id) => [Name(id)]
    case Un(u, e) => [match u case Not => NotSym case Minus => Sym(BinOp.Sub) case Len => LenSym] + Flat(e)
    case Bin(op, l, r) => Flat(l) + [Sym(op)] + Flat(r)
  }

  function Bare(toks: seq<Token>): seq<Token> {
    if toks == [] then [] else if toks[0] in {LPar, RPar} then Bare(toks[1..]) else [toks[0]] + Bare(toks[1..])
  }

  /** How many parentheses are opened more often than closed. */
  function Depth(toks: seq<Token>): int {
    if toks == [] then 0 else (if toks[0] == LPar then 1 else if toks[0] == RPar then -1 else 0) + Depth(toks[1..])
  }

  ghost predicate Kept(toks: seq<Token>, r: Read) {
    r.Ok? ==> Bare(toks) == Flat(r.t) + Bare(r.rest) && Depth(toks) == Depth(r.rest)
  }

  /** What has been read is the tree, token by token, and its parentheses are balanced. */
  lemma {:induction false} TokensKept(toks: seq<Token>, limit: nat)
    ensures Kept(toks, SubExpr(toks, limit))
    decreases |toks|, 2
  {
    var v := Operand(toks);
    OperandKept(toks);
    if v.Ok? { MoreKept(toks, v.t, v.rest, limit); }
  }

  lemma {:induction false} OperandKept(toks: seq<Token>)
    ensures Kept(toks, Operand(toks))
    decreases |toks|, 1
  {
    if toks != [] {
      if GetUnOpr(toks[0]) != [] {
        TokensKept(toks[1..], UNARY_PRIORITY);
        var r := SubExpr(toks[1..], UNARY_PRIORITY);
        if r.Ok? { assert Flat(Un(GetUnOpr(toks[0])[0], r.t)) == [toks[0]] + Flat(r.t); }
      } else if toks[0] == LPar {
        TokensKept(toks[1..], 0);
      }
    }
  }

  lemma {:induction false} MoreKept(all: seq<Token>, v: Tree, toks: seq<Token>, limit: nat)
    requires |toks| < |all| && Bare(all) == Flat(v) + Bare(toks) && Depth(all) == Depth(toks)
    ensures Kept(all, More(v, toks, limit))
    decreases |toks|, 3
  {
    MoreStep(v, toks, limit);
    if toks != [] && toks[0].Sym? && Left(toks[0].op) > limit {
      TokensKept(toks[1..], Right(toks[0].op));
      var r := SubExpr(toks[1..], Right(toks[0].op));
      if r.Ok? {
        assert Flat(Bin(toks[0].op, v, r.t)) + Bare(r.rest) == Flat(v) + ([toks[0]] + (Flat(r.t) + Bare(r.rest)));
        MoreKept(all, Bin(toks[0].op, v, r.t), r.rest, limit);
      }
    }
  }
}
