/** Patterns: their syntax, and what it means that a pattern matches. */
module PatternSpec {

  type Str = seq<nat>

  datatype Option<+T> = None | Some(value: T)

  const MAXCAPTURES: nat := 32
  const CAP_UNFINISHED := -1
  const CAP_POSITION := -2

  /** A capture: where it begins, and its length, CAP_UNFINISHED or CAP_POSITION. */
  datatype Cap = Cap(init: nat, len: int)

  /** The character at i; every string is followed by a zero. */
  function At(p: Str, i: nat): nat { if i < |p| then p[i] else 0 }

  function C(c: char): nat { c as nat }

  // ---- Characters --------------------------------------------------------------------------

  predicate IsLower(c: nat) { C('a') <= c <= C('z') }

  predicate IsUpper(c: nat) { C('A') <= c <= C('Z') }

  predicate IsDigit(c: nat) { C('0') <= c <= C('9') }

  predicate IsAlpha(c: nat) { IsLower(c) || IsUpper(c) }

  function ToLower(c: nat): nat { if IsUpper(c) then c + 32 else c }

  /** match_class; the classes of characters are those of the C locale. */
  predicate MatchClass(c: nat, cl: nat) {
    var k := ToLower(cl);
    if k == C('a') then IsAlpha(c) == IsLower(cl)
    else if k == C('c') then (c < 32 || c == 127) == IsLower(cl)
    else if k == C('d') then IsDigit(c) == IsLower(cl)
    else if k == C('l') then IsLower(c) == IsLower(cl)
    else if k == C('p') then (33 <= c <= 126 && !IsAlpha(c) && !IsDigit(c)) == IsLower(cl)
    else if k == C('s') then (9 <= c <= 13 || c == 32) == IsLower(cl)
    else if k == C('u') then IsUpper(c) == IsLower(cl)
    else if k == C('w') then (IsAlpha(c) || IsDigit(c)) == IsLower(cl)
    else if k == C('x') then (IsDigit(c) || C('a') <= ToLower(c) <= C('f')) == IsLower(cl)
    else if k == C('z') then (c == 0) == IsLower(cl)
    else cl == c
  }

  /** One element of a set [...]: %class, a range or a character; and where the next one begins. */
  predicate ElementHas(p: Str, q: nat, ec: nat, c: nat) {
    if At(p, q) == C('%') then MatchClass(c, At(p, q + 1))
    else if At(p, q + 1) == C('-') && q + 2 < ec then At(p, q) <= c <= At(p, q + 2)
    else At(p, q) == c
  }

  function NextElement(p: Str, q: nat, ec: nat): (r: nat)
    ensures r > q
  {
    if At(p, q) == C('%') then q + 2
    else if At(p, q + 1) == C('-') && q + 2 < ec then q + 3
    else q + 1
  }

  /** c is in an element from q on, before the closing bracket at ec. */
  predicate InElements(p: Str, q: nat, ec: nat, c: nat)
    decreases if q < ec then ec - q else 0
  {
    q < ec && (ElementHas(p, q, ec, c) || InElements(p, NextElement(p, q, ec), ec, c))
  }

  /** The set that begins with a bracket at p and ends with one at ec. */
  predicate InSet(p: Str, b: nat, ec: nat, c: nat) {
    if At(p, b + 1) == C('^') then !InElements(p, b + 2, ec, c) else InElements(p, b + 1, ec, c)
  }

  predicate SingleMatch(p: Str, b: nat, ep: nat, c: nat)
    requires b < ep
  {
    if At(p, b) == C('.') then true
    else if At(p, b) == C('%') then MatchClass(c, At(p, b + 1))
    else if At(p, b) == C('[') then InSet(p, b, ep - 1, c)
    else At(p, b) == c
  }

  // ---- Syntax ------------------------------------------------------------------------------

  /** From inside a set, the position behind its closing bracket. */
  function SetEnd(p: Str, q: nat): (r: Option<nat>)
    ensures r.Some? ==> q < r.value <= |p|
    decreases |p| - q
  {
    if At(p, q) == 0 then None
    else
      var q1 := if At(p, q) == C('%') && At(p, q + 1) != 0 then q + 2 else q + 1;
      if At(p, q1) == C(']') then Some(q1 + 1) else SetEnd(p, q1)
  }

  /** classend: the position behind a single-character class; None where the pattern is malformed. */
  function ClassEnd(p: Str, b: nat): (r: Option<nat>)
    requires At(p, b) != 0
    ensures r.Some? ==> b < r.value <= |p|
  {
    if At(p, b) == C('%') then (if At(p, b + 1) == 0 then None else Some(b + 2))
    else if At(p, b) == C('[') then SetEnd(p, if At(p, b + 1) == C('^') then b + 2 else b + 1)
    else Some(b + 1)
  }

  /** A pattern item. `Single` is a character class in the pattern, from b to ep, that may be
      repeated at least lo times and, if bounded, at most once. */
  datatype Item =
    | Open | PosOpen | Close | Anchor
    | Balance(x: nat, y: nat)
    | Frontier(b: nat, ep: nat)
    | Back(l: int)
    | Single(b: nat, ep: nat, lo: nat, bounded: bool, lazy: bool)

  datatype Parsed = End | Bad | It(item: Item, next: nat)

  /** The item at p: the case distinctions of `match`. */
  function ParseAt(pat: Str, p: nat): (r: Parsed)
    ensures r.It? ==> p < r.next <= |pat| && (r.item.Single? || r.item.Frontier? ==> r.item.b < r.item.ep)
  {
    var c := At(pat, p);
    var d := At(pat, p + 1);
    if c == C('(') then (if d == C(')') then It(PosOpen, p + 2) else It(Open, p + 1))
    else if c == C(')') then It(Close, p + 1)
    else if c == C('%') && d == C('b') then
      (if At(pat, p + 2) == 0 || At(pat, p + 3) == 0 then Bad else It(Balance(At(pat, p + 2), At(pat, p + 3)), p + 4))
    else if c == C('%') && d == C('f') then
      (if At(pat, p + 2) != C('[') then Bad else
       var e := ClassEnd(pat, p + 2);
       if e.None? then Bad else It(Frontier(p + 2, e.value), e.value))
    else if c == C('%') && IsDigit(d) then It(Back(d - C('1')), p + 2)
    else if c == 0 then End
    else if c == C('$') && d == 0 then It(Anchor, p + 1)
    else ParseSingle(pat, p)
  }

  function ParseSingle(pat: Str, p: nat): (r: Parsed)
    requires At(pat, p) != 0
    ensures r.It? ==> p < r.next <= |pat| && r.item.Single? && r.item.b < r.item.ep
    ensures !r.End?
  {
    var e := ClassEnd(pat, p);
    if e.None? then Bad else
    var ep := e.value;
    if At(pat, ep) == C('?') then It(Single(p, ep, 0, true, false), ep + 1)
    else if At(pat, ep) == C('*') then It(Single(p, ep, 0, false, false), ep + 1)
    else if At(pat, ep) == C('+') then It(Single(p, ep, 1, false, false), ep + 1)
    else if At(pat, ep) == C('-') then It(Single(p, ep, 0, false, true), ep + 1)
    else It(Single(p, ep, 1, true, false), ep)
  }

  datatype CapKind = Unfinished | Position | Closed

  function KindOf(c: Cap): CapKind {
    if c.len == CAP_UNFINISHED then Unfinished else if c.len == CAP_POSITION then Position else Closed
  }

  function Kinds(caps: seq<Cap>): (r: seq<CapKind>)
    ensures |r| == |caps|
    ensures forall i :: 0 <= i < |caps| ==> r[i] == KindOf(caps[i])
  {
    seq(|caps|, i requires 0 <= i < |caps| => KindOf(caps[i]))
  }

  /** capture_to_close, on kinds; -1 if no capture is open. */
  function LastOpen(ks: seq<CapKind>): (r: int)
    ensures -1 <= r < |ks| && (r >= 0 ==> ks[r] == Unfinished)
    ensures forall i :: r < i < |ks| ==> ks[i] != Unfinished
  {
    if ks == [] then -1 else if ks[|ks|-1] == Unfinished then |ks| - 1 else LastOpen(ks[..|ks|-1])
  }

  /** The rest of the pattern raises no error, whatever it is matched with. */
  predicate WellFormed(pat: Str, p: nat, ks: seq<CapKind>)
    decreases |pat| - p
  {
    match ParseAt(pat, p)
    case End => true
    case Bad => false
    case It(item, next) =>
      match item
      case Open => |ks| < MAXCAPTURES && WellFormed(pat, next, ks + [Unfinished])
      case PosOpen => |ks| < MAXCAPTURES && WellFormed(pat, next, ks + [Position])
      case Close => LastOpen(ks) >= 0 && WellFormed(pat, next, ks[LastOpen(ks) := Closed])
      case Back(l) => 0 <= l < |ks| && ks[l] != Unfinished && WellFormed(pat, next, ks)
      case _ => WellFormed(pat, next, ks)
  }

  // ---- Meaning -----------------------------------------------------------------------------

  /** The end of a balanced string: `open` more closing characters y have to come than x. */
  function BalanceEnd(src: Str, i: nat, x: nat, y: nat, open: nat): (r: Option<nat>)
    requires i <= |src| && open > 0
    ensures r.Some? ==> i < r.value <= |src|
    decreases |src| - i
  {
    if i == |src| then None
    else if src[i] == y then (if open == 1 then Some(i + 1) else BalanceEnd(src, i + 1, x, y, open - 1))
    else BalanceEnd(src, i + 1, x, y, if src[i] == x then open + 1 else open)
  }

  /** The k characters of the source from s on are all in the class of an item. */
  predicate Repeats(pat: Str, src: Str, b: nat, ep: nat, s: nat, k: nat)
    requires b < ep
  {
    s + k <= |src| && forall i :: s <= i < s + k ==> SingleMatch(pat, b, ep, src[i])
  }

  predicate AtFrontier(pat: Str, src: Str, b: nat, ep: nat, s: nat)
    requires b < ep
  {
    !InSet(pat, b, ep - 1, if s == 0 then 0 else At(src, s - 1)) && InSet(pat, b, ep - 1, At(src, s))
  }

  /** A closed capture occurs again at s. The length of a position capture is no length: there the
      unsigned comparison of match_capture fails. */
  predicate Recurs(src: Str, c: Cap, s: nat) {
    c.len >= 0 && s + c.len <= |src| && c.init + c.len <= |src| && src[c.init..c.init + c.len] == src[s..s + c.len]
  }

  /** The position behind the character at s. */
  function Past(src: Str, s: nat): (r: nat)
    requires s <= |src|
    ensures s <= r <= |src|
  {
    if s < |src| then s + 1 else s
  }

  /** What a choice of counts leads to, if it does not fail: a match up to e with its captures, or an
      error, where the pattern turns out to be malformed. */
  datatype Result = Matched(e: nat, caps: seq<Cap>) | BadPattern

  type Answer = Option<Result>

  /** The error is met when there is nothing left to choose. */
  function Raised(counts: seq<nat>): Answer { if counts == [] then Some(BadPattern) else None }

  /** The rest of the pattern, with a repetition count for each character class that is met: what
      this leads to, or None if these counts do not match. */
  function Run(pat: Str, src: Str, p: nat, s: nat, caps: seq<Cap>, counts: seq<nat>): (r: Answer)
    requires s <= |src|
    decreases |pat| - p
  {
    match ParseAt(pat, p)
    case End => if counts == [] then Some(Matched(s, caps)) else None
    case Bad => Raised(counts)
    case It(item, next) =>
      match item
      case Open => if |caps| >= MAXCAPTURES then Raised(counts) else Run(pat, src, next, s, caps + [Cap(s, CAP_UNFINISHED)], counts)
      case PosOpen => if |caps| >= MAXCAPTURES then Raised(counts) else Run(pat, src, next, s, caps + [Cap(s, CAP_POSITION)], counts)
      case Close =>
        var l := LastOpen(Kinds(caps));
        if l < 0 then Raised(counts) else Run(pat, src, next, s, caps[l := Cap(caps[l].init, s - caps[l].init)], counts)
      case Anchor => if s == |src| then Run(pat, src, next, s, caps, counts) else None
      case Balance(x, y) =>
        if At(src, s) != x then None else
        var e := BalanceEnd(src, Past(src, s), x, y, 1);
        if e.None? then None else Run(pat, src, next, e.value, caps, counts)
      case Frontier(b, ep) => if AtFrontier(pat, src, b, ep, s) then Run(pat, src, next, s, caps, counts) else None
      case Back(l) =>
        if !(0 <= l < |caps| && KindOf(caps[l]) != Unfinished) then Raised(counts)
        else if Recurs(src, caps[l], s) then Run(pat, src, next, s + caps[l].len, caps, counts) else None
      case Single(b, ep, lo, bounded, lazy) =>
        if counts != [] && lo <= counts[0] && (bounded ==> counts[0] <= 1) && Repeats(pat, src, b, ep, s, counts[0])
        then Run(pat, src, next, s + counts[0], caps, counts[1..]) else None
  }

  /** Counts a are tried before counts b: at the first class where they differ, a has more, or
      fewer if the repetition is lazy. */
  predicate Before(pat: Str, p: nat, a: seq<nat>, b: seq<nat>)
    decreases |pat| - p
  {
    match ParseAt(pat, p)
    case It(Single(_, _, _, _, lazy), next) =>
      a != [] && b != [] &&
      if a[0] != b[0] then (if lazy then a[0] < b[0] else a[0] > b[0]) else Before(pat, next, a[1..], b[1..])
    case It(_, next) => Before(pat, next, a, b)
    case _ => false
  }

  /** r is what the rest of the pattern gives from s on: what the first choice of counts that does not
      fail leads to, or None if every choice fails. */
  ghost predicate Answers(pat: Str, src: Str, p: nat, s: nat, caps: seq<Cap>, r: Answer)
    requires s <= |src|
  {
    if r.None? then forall counts :: Run(pat, src, p, s, caps, counts).None?
    else exists counts :: Run(pat, src, p, s, caps, counts) == r && IsFirst(pat, src, p, s, caps, counts)
  }

  ghost predicate IsFirst(pat: Str, src: Str, p: nat, s: nat, caps: seq<Cap>, counts: seq<nat>)
    requires s <= |src|
  {
    forall other :: Run(pat, src, p, s, caps, other).Some? ==> !Before(pat, p, other, counts)
  }

  /** Captures lie before the position reached. */
  ghost predicate CapsBefore(caps: seq<Cap>, s: nat) {
    forall i :: 0 <= i < |caps| ==> caps[i].init <= s && (caps[i].len >= 0 ==> caps[i].init + caps[i].len <= s)
  }

  lemma Opening(caps: seq<Cap>, s: nat, what: int)
    requires what == CAP_UNFINISHED || what == CAP_POSITION
    ensures Kinds(caps + [Cap(s, what)]) == Kinds(caps) + [KindOf(Cap(s, what))]
    ensures KindOf(Cap(s, what)) == if what == CAP_UNFINISHED then Unfinished else Position
    ensures CapsBefore(caps, s) ==> CapsBefore(caps + [Cap(s, what)], s)
  {
  }

  lemma Closing(caps: seq<Cap>, l: nat, s: nat)
    requires l < |caps| && CapsBefore(caps, s)
    ensures var closed := caps[l := Cap(caps[l].init, s - caps[l].init)];
      Kinds(closed) == Kinds(caps)[l := Closed] && CapsBefore(closed, s)
  {
  }

  lemma Moving(caps: seq<Cap>, s: nat, s': nat)
    requires CapsBefore(caps, s) && s <= s'
    ensures CapsBefore(caps, s')
  {
  }

  lemma BackMoves(src: Str, caps: seq<Cap>, l: nat, s: nat)
    requires l < |caps| && CapsBefore(caps, s) && Recurs(src, caps[l], s)
    ensures s + caps[l].len <= |src| && CapsBefore(caps, s + caps[l].len)
  {
  }

  /** Any two choices that do not fail are equal, or one is tried before the other. */
  lemma {:induction false} Ordered(pat: Str, src: Str, p: nat, s: nat, s': nat, caps: seq<Cap>, caps': seq<Cap>, a: seq<nat>, b: seq<nat>)
    requires s <= |src| && s' <= |src| && Run(pat, src, p, s, caps, a).Some? && Run(pat, src, p, s', caps', b).Some?
    requires Kinds(caps) == Kinds(caps') && CapsBefore(caps, s) && CapsBefore(caps', s')
    ensures a == b || Before(pat, p, a, b) || Before(pat, p, b, a)
    decreases |pat| - p
  {
    hide SingleMatch, AtFrontier, BalanceEnd, LastOpen, ParseAt, Kinds, KindOf, Recurs, CapsBefore;
    match ParseAt(pat, p)
    case End =>
    case Bad =>
    case It(item, next) =>
      match item
      case Open =>
        Opening(caps, s, CAP_UNFINISHED);
        Opening(caps', s', CAP_UNFINISHED);
        if |caps| < MAXCAPTURES { Ordered(pat, src, next, s, s', caps + [Cap(s, CAP_UNFINISHED)], caps' + [Cap(s', CAP_UNFINISHED)], a, b); }
      case PosOpen =>
        Opening(caps, s, CAP_POSITION);
        Opening(caps', s', CAP_POSITION);
        if |caps| < MAXCAPTURES { Ordered(pat, src, next, s, s', caps + [Cap(s, CAP_POSITION)], caps' + [Cap(s', CAP_POSITION)], a, b); }
      case Close =>
        var l := LastOpen(Kinds(caps));
        if l >= 0 {
          Closing(caps, l, s);
          Closing(caps', l, s');
          Ordered(pat, src, next, s, s', caps[l := Cap(caps[l].init, s - caps[l].init)], caps'[l := Cap(caps'[l].init, s' - caps'[l].init)], a, b);
        }
      case Anchor => Ordered(pat, src, next, s, s', caps, caps', a, b);
      case Balance(x, y) =>
        var e := BalanceEnd(src, Past(src, s), x, y, 1);
        var e' := BalanceEnd(src, Past(src, s'), x, y, 1);
        Moving(caps, s, e.value);
        Moving(caps', s', e'.value);
        Ordered(pat, src, next, e.value, e'.value, caps, caps', a, b);
      case Frontier(_, _) => Ordered(pat, src, next, s, s', caps, caps', a, b);
      case Back(l) =>
        if 0 <= l < |caps| && KindOf(caps[l]) != Unfinished {
          assert Kinds(caps)[l] == Kinds(caps')[l];
          BackMoves(src, caps, l, s);
          BackMoves(src, caps', l, s');
          Ordered(pat, src, next, s + caps[l].len, s' + caps'[l].len, caps, caps', a, b);
        }
      case Single(_, _, _, _, _) =>
        if a[0] == b[0] {
          Moving(caps, s, s + a[0]);
          Moving(caps', s', s' + b[0]);
          Ordered(pat, src, next, s + a[0], s' + b[0], caps, caps', a[1..], b[1..]);
          assert a == [a[0]] + a[1..] && b == [b[0]] + b[1..];
        }
  }

  /** There is one answer only. */
  lemma AnswerUnique(pat: Str, src: Str, p: nat, s: nat, caps: seq<Cap>, r: Answer, r': Answer)
    requires s <= |src| && CapsBefore(caps, s) && Answers(pat, src, p, s, caps, r) && Answers(pat, src, p, s, caps, r')
    ensures r == r'
  {
    if r.Some? && r'.Some? {
      var a :| Run(pat, src, p, s, caps, a) == r && IsFirst(pat, src, p, s, caps, a);
      var b :| Run(pat, src, p, s, caps, b) == r' && IsFirst(pat, src, p, s, caps, b);
      Ordered(pat, src, p, s, s, caps, caps, a, b);
    }
  }

  /** A well-formed pattern raises no error, whatever it is matched with. */
  lemma {:induction false} WellFormedMatches(pat: Str, src: Str, p: nat, s: nat, caps: seq<Cap>, counts: seq<nat>)
    requires s <= |src| && CapsBefore(caps, s) && WellFormed(pat, p, Kinds(caps))
    ensures Run(pat, src, p, s, caps, counts) != Some(BadPattern)
    decreases |pat| - p
  {
    hide SingleMatch, AtFrontier, BalanceEnd, LastOpen, ParseAt;
    match ParseAt(pat, p)
    case End =>
    case Bad =>
    case It(item, next) =>
      match item
      case Open =>
        assert Kinds(caps + [Cap(s, CAP_UNFINISHED)]) == Kinds(caps) + [Unfinished];
        WellFormedMatches(pat, src, next, s, caps + [Cap(s, CAP_UNFINISHED)], counts);
      case PosOpen =>
        assert Kinds(caps + [Cap(s, CAP_POSITION)]) == Kinds(caps) + [Position];
        WellFormedMatches(pat, src, next, s, caps + [Cap(s, CAP_POSITION)], counts);
      case Close =>
        var l := LastOpen(Kinds(caps));
        var closed := caps[l := Cap(caps[l].init, s - caps[l].init)];
        assert Kinds(closed) == Kinds(caps)[l := Closed];
        WellFormedMatches(pat, src, next, s, closed, counts);
      case Anchor => if s == |src| { WellFormedMatches(pat, src, next, s, caps, counts); }
      case Balance(x, y) =>
        if At(src, s) == x {
          var e := BalanceEnd(src, Past(src, s), x, y, 1);
          if e.Some? { WellFormedMatches(pat, src, next, e.value, caps, counts); }
        }
      case Frontier(_, _) => WellFormedMatches(pat, src, next, s, caps, counts);
      case Back(l) => if Recurs(src, caps[l], s) { WellFormedMatches(pat, src, next, s + caps[l].len, caps, counts); }
      case Single(b, ep, _, _, _) =>
        if counts != [] && Repeats(pat, src, b, ep, s, counts[0]) { WellFormedMatches(pat, src, next, s + counts[0], caps, counts[1..]); }
  }

  /** How often x occurs in the source from i to j. */
  function Occurs(src: Str, x: nat, i: nat, j: nat): nat
    requires i <= j <= |src|
    decreases j - i
  {
    if i == j then 0 else (if src[j-1] == x then 1 else 0) + Occurs(src, x, i, j - 1)
  }

  /** %bxy: up to the end the characters y have made up for the characters x for the first time. With
      equal delimiters every one of them closes. */
  lemma {:induction false} BalanceMeaning(src: Str, i: nat, x: nat, y: nat, open: nat)
    requires i <= |src| && open > 0
    ensures var e := BalanceEnd(src, i, x, y, open);
      if e.Some? then
        && Occurs(src, y, i, e.value) == Opens(src, x, y, i, e.value) + open
        && forall j :: i <= j < e.value ==> Occurs(src, y, i, j) < Opens(src, x, y, i, j) + open
      else forall j :: i <= j <= |src| ==> Occurs(src, y, i, j) < Opens(src, x, y, i, j) + open
    decreases |src| - i
  {
    if i < |src| {
      forall j | i < j <= |src| ensures Occurs(src, y, i, j) == (if src[i] == y then 1 else 0) + Occurs(src, y, i + 1, j) &&
                                        Occurs(src, x, i, j) == (if src[i] == x then 1 else 0) + Occurs(src, x, i + 1, j) {
        OccursFront(src, y, i, j);
        OccursFront(src, x, i, j);
      }
      var open' := if src[i] == y then open - 1 else if src[i] == x then open + 1 else open;
      if open' > 0 { BalanceMeaning(src, i + 1, x, y, open'); }
    }
  }

  /** The opening characters from i to j; none where the delimiters are equal. */
  function Opens(src: Str, x: nat, y: nat, i: nat, j: nat): nat
    requires i <= j <= |src|
  {
    if x == y then 0 else Occurs(src, x, i, j)
  }

  /** So %bxx matches from one x to the next one. */
  lemma {:induction false} EqualDelimiters(src: Str, i: nat, x: nat)
    requires i <= |src|
    ensures var e := BalanceEnd(src, i, x, x, 1);
      if e.Some? then src[e.value-1] == x && forall j :: i <= j < e.value - 1 ==> src[j] != x
      else forall j :: i <= j < |src| ==> src[j] != x
    decreases |src| - i
  {
    if i < |src| && src[i] != x { EqualDelimiters(src, i + 1, x); }
  }

  lemma {:induction false} OccursFront(src: Str, x: nat, i: nat, j: nat)
    requires i < j <= |src|
    ensures Occurs(src, x, i, j) == (if src[i] == x then 1 else 0) + Occurs(src, x, i + 1, j)
    decreases j - i
  {
    if i + 1 < j { OccursFront(src, x, i, j - 1); }
  }
}
