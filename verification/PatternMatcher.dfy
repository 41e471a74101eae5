/** The matcher of lstrlib.c: backtracking, with the captures changed in place and undone. */
module PatternMatcher {
  import opened PatternSpec

  /** NULL, a position behind the match, or luaL_error. */
  datatype Outcome = Null | Pos(e: nat) | Error

  class MatchState {
    const src: Str
    const pat: Str
    var level: nat
    var capture: seq<Cap>

    ghost predicate Valid()
      reads this
    {
      |capture| == MAXCAPTURES && level <= MAXCAPTURES
    }

    ghost function Caps(): seq<Cap>
      requires Valid()
      reads this
    {
      capture[..level]
    }

    constructor (source: Str, pattern: Str)
      ensures Valid() && level == 0 && src == source && pat == pattern
    {
      src, pat, level := source, pattern, 0;
      capture := seq(MAXCAPTURES, _ => Cap(0, 0));
    }

    // ---- Single characters -----------------------------------------------------------------

    /** classend; -1 for a malformed pattern. */
    method ClassEndAt(b: nat) returns (r: int)
      requires At(pat, b) != 0
      ensures r == match ClassEnd(pat, b) case None => -1 case Some(e) => e
    {
      var p := b + 1;
      if At(pat, b) == C('%') {
        return if At(pat, p) == 0 then -1 else p + 1;
      }
      if At(pat, b) == C('[') {
        if At(pat, p) == C('^') { p := p + 1; }
        ghost var start := p;
        while true
          invariant SetEnd(pat, p) == SetEnd(pat, start)
          decreases |pat| - p
        {
          if At(pat, p) == 0 { return -1; }
          p := p + 1;
          if At(pat, p - 1) == C('%') && At(pat, p) != 0 { p := p + 1; }
          if At(pat, p) == C(']') { return p + 1; }
        }
      }
      return p;
    }

    /** matchbracketclass. */
    method MatchBracketClass(c: nat, b: nat, ec: nat) returns (r: bool)
      ensures r == InSet(pat, b, ec, c)
    {
      var sig, p := true, b;
      if At(pat, p + 1) == C('^') {
        sig := false;
        p := p + 1;
      }
      ghost var first := p + 1;
      p := p + 1;
      while p < ec
        invariant InElements(pat, p, ec, c) == InElements(pat, first, ec, c)
        decreases ec - p
      {
        if At(pat, p) == C('%') {
          p := p + 1;
          if MatchClass(c, At(pat, p)) { return sig; }
        } else if At(pat, p + 1) == C('-') && p + 2 < ec {
          p := p + 2;
          if At(pat, p - 2) <= c <= At(pat, p) { return sig; }
        } else if At(pat, p) == c {
          return sig;
        }
        p := p + 1;
      }
      return !sig;
    }

    /** singlematch. */
    method MatchSingle(c: nat, b: nat, ep: nat) returns (r: bool)
      requires b < ep
      ensures r == SingleMatch(pat, b, ep, c)
    {
      if At(pat, b) == C('.') {
        r := true;
      } else if At(pat, b) == C('%') {
        r := MatchClass(c, At(pat, b + 1));
      } else if At(pat, b) == C('[') {
        r := MatchBracketClass(c, b, ep - 1);
      } else {
        r := At(pat, b) == c;
      }
    }

    /** matchbalance, for two characters that are not the end of the pattern; -1 for NULL. */
    method MatchBalance(s: nat, x: nat, y: nat) returns (r: int)
      requires s <= |src| && x != 0
      ensures r == if At(src, s) != x then -1 else match BalanceEnd(src, Past(src, s), x, y, 1) case None => -1 case Some(e) => e
    {
      if At(src, s) != x { return -1; }
      var cont, i := 1, s + 1;
      while i < |src|
        invariant s < i <= |src| && cont > 0
        invariant BalanceEnd(src, i, x, y, cont) == BalanceEnd(src, Past(src, s), x, y, 1)
      {
        if src[i] == y {
          cont := cont - 1;
          if cont == 0 { return i + 1; }
        } else if src[i] == x {
          cont := cont + 1;
        }
        i := i + 1;
      }
      return -1;
    }

    // ---- Matching --------------------------------------------------------------------------

    /** match, with its tail calls as calls. */
    method Match(s: nat, p: nat) returns (r: Outcome)
      requires Valid() && s <= |src| && p <= |pat| && CapsBefore(Caps(), s)
      modifies this`level, this`capture
      ensures Valid() && Achieved(pat, src, p, s, old(Caps()), Caps(), r)
      decreases |pat| - p, 2
    {
      hide ParseSingle, ClassEnd, InSet, SingleMatch, WellFormed, Run, Answers, CapsBefore, Achieved, Recurs, Kinds, BalanceEnd;
      var c, d := At(pat, p), At(pat, p + 1);
      if c == C('(') {
        if d == C(')') {
          r := StartCapture(s, p, p + 2, CAP_POSITION);
        } else {
          r := StartCapture(s, p, p + 1, CAP_UNFINISHED);
        }
      } else if c == C(')') {
        r := EndCapture(s, p, p + 1);
      } else if c == C('%') && d == C('b') {
        r := DoBalance(s, p);
      } else if c == C('%') && d == C('f') {
        r := DoFrontier(s, p);
      } else if c == C('%') && IsDigit(d) {
        r := DoBack(s, p, d);
      } else if c == 0 {
        AtEnd(pat, src, p, s, Caps());
        return Pos(s);
      } else if c == C('$') && d == 0 {
        AtAnchor(pat, src, p, s, Caps());
        return if s == |src| then Pos(s) else Null;
      } else {
        r := DoItem(s, p);
      }
    }

    /** start_capture. */
    method StartCapture(s: nat, ghost p0: nat, p: nat, what: int) returns (r: Outcome)
      requires Valid() && s <= |src| && p0 < p <= |pat| && CapsBefore(Caps(), s)
      requires ParseAt(pat, p0) == It(if what == CAP_POSITION then PosOpen else Open, p) && (what == CAP_POSITION || what == CAP_UNFINISHED)
      modifies this`level, this`capture
      ensures Valid() && Achieved(pat, src, p0, s, old(Caps()), Caps(), r)
      decreases |pat| - p0, 1
    {
      hide ParseAt, Run, Answers, WellFormed, Kinds;
      if level >= MAXCAPTURES {
        TooMany(pat, src, p0, s, Caps());
        return Error;
      }
      ghost var caps := Caps();
      capture := capture[level := Cap(s, what)];
      level := level + 1;
      assert Caps() == caps + [Cap(s, what)];
      r := Match(s, p);
      if r == Null {
        assert Caps()[..level-1] == caps;
        level := level - 1;
        assert Caps() == caps;
      }
      Opened(pat, src, p0, s, caps, what, Caps(), r);
    }

    /** capture_to_close; -1 for an error. */
    method CaptureToClose() returns (l: int)
      requires Valid()
      ensures l == LastOpen(Kinds(Caps()))
    {
      l := level - 1;
      while l >= 0
        invariant -1 <= l < level && forall i :: l < i < level ==> KindOf(capture[i]) != Unfinished
      {
        if capture[l].len == CAP_UNFINISHED { return; }
        l := l - 1;
      }
    }

    /** end_capture. */
    method EndCapture(s: nat, ghost p0: nat, p: nat) returns (r: Outcome)
      requires Valid() && s <= |src| && p0 < p <= |pat| && CapsBefore(Caps(), s) && ParseAt(pat, p0) == It(Close, p)
      modifies this`level, this`capture
      ensures Valid() && Achieved(pat, src, p0, s, old(Caps()), Caps(), r)
      decreases |pat| - p0, 1
    {
      hide ParseAt, Run, Answers, WellFormed, Kinds;
      ghost var caps := Caps();
      var l := CaptureToClose();
      if l < 0 {
        NoneOpen(pat, src, p0, s, caps);
        return Error;
      }
      KindsAt(caps, l);
      assert capture[l] == caps[l];
      capture := capture[l := Cap(capture[l].init, s - capture[l].init)];
      ghost var closed := Caps();
      assert closed == caps[l := Cap(caps[l].init, s - caps[l].init)];
      r := Match(s, p);
      if r == Null {
        assert capture[l] == Caps()[l] == closed[l];
        capture := capture[l := Cap(capture[l].init, CAP_UNFINISHED)];
        assert Caps() == caps;
      }
      ClosedAt(pat, src, p0, s, caps, l, Caps(), r);
    }

    /** The case %bxy of match. */
    method DoBalance(s: nat, p: nat) returns (r: Outcome)
      requires Valid() && s <= |src| && p <= |pat| && CapsBefore(Caps(), s) && At(pat, p) == C('%') && At(pat, p + 1) == C('b')
      modifies this`level, this`capture
      ensures Valid() && Achieved(pat, src, p, s, old(Caps()), Caps(), r)
      decreases |pat| - p, 1
    {
      hide Run, Answers, WellFormed, Kinds, BalanceEnd, CapsBefore;
      ghost var caps := Caps();
      if At(pat, p + 2) == 0 || At(pat, p + 3) == 0 {
        Malformed(pat, src, p, s, caps);
        return Error;
      }
      var x, y := At(pat, p + 2), At(pat, p + 3);
      assert ParseAt(pat, p) == It(Balance(x, y), p + 4);
      hide ParseAt;
      var e := MatchBalance(s, x, y);
      if e < 0 {
        Unbalanced(pat, src, p, s, caps);
        return Null;
      }
      LaterCaps(caps, s, e);
      r := Match(e, p + 4);
      Balanced(pat, src, p, s, e, caps, Caps(), r);
    }

    /** The case %f[set] of match. */
    method DoFrontier(s: nat, p: nat) returns (r: Outcome)
      requires Valid() && s <= |src| && p <= |pat| && CapsBefore(Caps(), s) && At(pat, p) == C('%') && At(pat, p + 1) == C('f')
      modifies this`level, this`capture
      ensures Valid() && Achieved(pat, src, p, s, old(Caps()), Caps(), r)
      decreases |pat| - p, 1
    {
      hide Run, Answers, WellFormed, Kinds, CapsBefore, ClassEnd, InSet;
      ghost var caps := Caps();
      if At(pat, p + 2) != C('[') {
        Malformed(pat, src, p, s, caps);
        return Error;
      }
      var ep := ClassEndAt(p + 2);
      if ep < 0 {
        Malformed(pat, src, p, s, caps);
        return Error;
      }
      assert ParseAt(pat, p) == It(Frontier(p + 2, ep), ep);
      hide ParseAt;
      var previous := if s == 0 then 0 else src[s-1];
      var before := MatchBracketClass(previous, p + 2, ep - 1);
      var now := MatchBracketClass(At(src, s), p + 2, ep - 1);
      if before || !now {
        NoFrontier(pat, src, p, s, caps);
        return Null;
      }
      r := Match(s, ep);
      FrontierPassed(pat, src, p, s, caps, Caps(), r);
    }

    /** The case %1 to %9 of match, with check_capture and match_capture. */
    method DoBack(s: nat, p: nat, d: nat) returns (r: Outcome)
      requires Valid() && s <= |src| && p <= |pat| && CapsBefore(Caps(), s) && At(pat, p) == C('%') && At(pat, p + 1) == d && IsDigit(d)
      modifies this`level, this`capture
      ensures Valid() && Achieved(pat, src, p, s, old(Caps()), Caps(), r)
      decreases |pat| - p, 1
    {
      hide Run, Answers, WellFormed, Kinds;
      ghost var caps := Caps();
      assert ParseAt(pat, p) == It(Back(d - C('1')), p + 2);
      hide ParseAt;
      var l := d - C('1');
      if l < 0 || l >= level || capture[l].len == CAP_UNFINISHED {
        BadIndex(pat, src, p, s, caps, l);
        return Error;
      }
      var len := capture[l].len;
      assert capture[l] == caps[l];
      if len >= 0 && |src| - s >= len && src[capture[l].init..capture[l].init + len] == src[s..s + len] {
        LaterCaps(caps, s, s + len);
        r := Match(s + len, p + 2);
        BackPassed(pat, src, p, s, caps, l, Caps(), r);
      } else {
        NotAgain(pat, src, p, s, caps, l);
        r := Null;
      }
    }

    /** A character class and its suffix: the default case of match. */
    method DoItem(s: nat, p: nat) returns (r: Outcome)
      requires Valid() && s <= |src| && p <= |pat| && CapsBefore(Caps(), s) && At(pat, p) != 0 && ParseAt(pat, p) == ParseSingle(pat, p)
      modifies this`level, this`capture
      ensures Valid() && Achieved(pat, src, p, s, old(Caps()), Caps(), r)
      decreases |pat| - p, 1
    {
      hide ParseAt, Run, Answers, WellFormed, Kinds, CapsBefore, ClassEnd, SingleMatch, Achieved;
      ghost var caps := Caps();
      var ep := ClassEndAt(p);
      if ep < 0 {
        Malformed(pat, src, p, s, caps);
        return Error;
      }
      var m := false;
      if s < |src| { m := MatchSingle(src[s], p, ep); }
      ghost var one := m;
      OneMore(pat, src, p, ep, s, 0);
      var suffix := At(pat, ep);
      if suffix == C('?') {
        r := Optional(s, p, ep, m);
      } else if suffix == C('*') {
        r := MaxExpand(s, p, ep, p, 0);
      } else if suffix == C('+') {
        if m {
          r := MaxExpand(s + 1, p, ep, p, 1);
        } else {
          NoRepeat(pat, src, p, s, caps);
          r := Null;
        }
      } else if suffix == C('-') {
        r := MinExpand(s, p, ep);
      } else if !m {
        NoRepeat(pat, src, p, s, caps);
        r := Null;
      } else {
        LaterCaps(caps, s, s + 1);
        r := Match(s + 1, ep);
        Once(pat, src, p, s, caps, Caps(), r);
      }
    }

    /** The suffix ?. */
    method Optional(s: nat, p: nat, ep: nat, m: bool) returns (r: Outcome)
      requires Valid() && s <= |src| && p < ep < |pat| && CapsBefore(Caps(), s) && ParseAt(pat, p) == It(Single(p, ep, 0, true, false), ep + 1)
      requires m == (s < |src| && SingleMatch(pat, p, ep, src[s]))
      modifies this`level, this`capture
      ensures Valid() && Achieved(pat, src, p, s, old(Caps()), Caps(), r)
      decreases |pat| - p, 0
    {
      hide ParseAt, Run, Answers, WellFormed, Kinds, CapsBefore, ClassEnd, SingleMatch;
      ghost var caps := Caps();
      OneMore(pat, src, p, ep, s, 0);
      if m {
        LaterCaps(caps, s, s + 1);
        r := Match(s + 1, ep + 1);
        if r != Null {
          Counted(pat, src, p, s, 1, caps, Caps(), r);
          return;
        }
      }
      r := Match(s, ep + 1);
      Counted(pat, src, p, s, 0, caps, Caps(), r);
    }

    /** max_expand, from s on. The item at p0 has been matched `off` times before s. */
    method MaxExpand(s: nat, p: nat, ep: nat, ghost p0: nat, ghost off: nat) returns (r: Outcome)
      requires Valid() && off <= s <= |src| && p == p0 < ep < |pat| && off <= 1 && CapsBefore(Caps(), s - off)
      requires ParseAt(pat, p0) == It(Single(p, ep, off, false, false), ep + 1) && Repeats(pat, src, p, ep, s - off, off)
      modifies this`level, this`capture
      ensures Valid() && Achieved(pat, src, p0, s - off, old(Caps()), Caps(), r)
      decreases |pat| - p0, 0
    {
      hide ParseAt, Run, Answers, WellFormed, Kinds, CapsBefore, ClassEnd, SingleMatch, Repeats, Achieved;
      ghost var caps, s0 := Caps(), s - off;
      var i := 0;
      while s + i < |src|
        invariant 0 <= i && s + i <= |src| && Repeats(pat, src, p, ep, s0, off + i)
        invariant Valid() && Caps() == caps
        decreases |src| - (s + i)
      {
        var one := MatchSingle(src[s + i], p, ep);
        OneMore(pat, src, p, ep, s0, off + i);
        if !one { break; }
        i := i + 1;
      }
      OneMore(pat, src, p, ep, s0, off + i);
      NoMore(pat, src, p, ep, s0, off + i);
      while i >= 0
        invariant -1 <= i && s + i <= |src| && (i >= 0 ==> Repeats(pat, src, p, ep, s0, off + i))
        invariant Valid() && Caps() == caps
        invariant forall k :: k > off + i && Repeats(pat, src, p, ep, s0, k) ==> Answers(pat, src, ep + 1, s0 + k, caps, None)
        decreases i
      {
        LaterCaps(caps, s0, s + i);
        r := Match(s + i, ep + 1);
        if r != Null {
          Counted(pat, src, p0, s0, off + i, caps, Caps(), r);
          return;
        }
        NullFacts(pat, src, ep + 1, s + i, caps, Caps());
        OneLess(pat, src, p, ep, s0, off + i);
        i := i - 1;
      }
      NoCount(pat, src, p0, s0, caps);
      return Null;
    }

    /** min_expand. */
    method MinExpand(s: nat, p: nat, ep: nat) returns (r: Outcome)
      requires Valid() && s <= |src| && p < ep < |pat| && CapsBefore(Caps(), s)
      requires ParseAt(pat, p) == It(Single(p, ep, 0, false, true), ep + 1)
      modifies this`level, this`capture
      ensures Valid() && Achieved(pat, src, p, s, old(Caps()), Caps(), r)
      decreases |pat| - p, 0
    {
      hide ParseAt, Run, Answers, WellFormed, Kinds, CapsBefore, ClassEnd, SingleMatch, Repeats, Achieved;
      ghost var caps := Caps();
      var i := s;
      OneMore(pat, src, p, ep, s, 0);
      while true
        invariant s <= i <= |src| && Repeats(pat, src, p, ep, s, i - s)
        invariant Valid() && Caps() == caps
        invariant forall k: nat :: k < i - s && Repeats(pat, src, p, ep, s, k) ==> Answers(pat, src, ep + 1, s + k, caps, None)
        decreases |src| - i
      {
        LaterCaps(caps, s, i);
        r := Match(i, ep + 1);
        if r != Null {
          Counted(pat, src, p, s, i - s, caps, Caps(), r);
          return;
        }
        NullFacts(pat, src, ep + 1, i, caps, Caps());
        OneMore(pat, src, p, ep, s, i - s);
        var one := false;
        if i < |src| { one := MatchSingle(src[i], p, ep); }
        if !one {
          NoMore(pat, src, p, ep, s, i - s);
          NoCount(pat, src, p, s, caps);
          return Null;
        }
        i := i + 1;
      }
    }

    /** The search of str_find_aux: the leftmost match of the pattern from p on, or, if the pattern
        is anchored, one at init. */
    method FindMatch(init: nat, p: nat, anchor: bool) returns (start: nat, r: Outcome)
      requires Valid() && init <= |src| && p <= |pat|
      modifies this`level, this`capture
      ensures Valid() && init <= start
      ensures r.Error? ==> start <= |src| && Answers(pat, src, p, start, [], Some(BadPattern)) && NoMatch(pat, src, p, init, start)
      ensures r.Null? ==> NoMatch(pat, src, p, init, if anchor then init + 1 else |src| + 1)
      ensures r.Pos? ==> start <= r.e <= |src| && Answers(pat, src, p, start, [], Some(Matched(r.e, Caps()))) && NoMatch(pat, src, p, init, start)
      ensures r.Pos? && anchor ==> start == init
    {
      hide WellFormed, Run, Answers, Kinds;
      start := init;
      while true
        invariant init <= start <= |src| && Valid() && NoMatch(pat, src, p, init, start) && (anchor ==> start == init)
        decreases |src| - start
      {
        level := 0;
        assert Caps() == [];
        r := Match(start, p);
        if r != Null {
          assert Kinds([]) == [];
          return;
        }
        if start == |src| || anchor { return; }
        start := start + 1;
      }
    }
  }

  /** From no position in [from, to) the pattern matches. */
  ghost predicate NoMatch(pat: Str, src: Str, p: nat, from: nat, to: nat) {
    forall s :: from <= s < to && s <= |src| ==> Answers(pat, src, p, s, [], None)
  }

  /** What a call for position p of the pattern and s of the source achieves. If the match fails,
      level and captures are as they were. */
  ghost predicate Achieved(pat: Str, src: Str, p: nat, s: nat, caps: seq<Cap>, caps': seq<Cap>, r: Outcome)
    requires s <= |src|
  {
    match r
    case Error => Answers(pat, src, p, s, caps, Some(BadPattern))
    case Null => caps' == caps && Answers(pat, src, p, s, caps, None)
    case Pos(e) => s <= e <= |src| && Answers(pat, src, p, s, caps, Some(Matched(e, caps')))
  }

  lemma LaterCaps(caps: seq<Cap>, s: nat, s': nat)
    requires CapsBefore(caps, s) && s <= s'
    ensures CapsBefore(caps, s')
  {
  }

  lemma NullFacts(pat: Str, src: Str, p: nat, s: nat, caps: seq<Cap>, caps': seq<Cap>)
    requires s <= |src| && Achieved(pat, src, p, s, caps, caps', Null)
    ensures caps' == caps && Answers(pat, src, p, s, caps, None)
  {
  }

  // ---- Items that do not repeat ------------------------------------------------------------

  /** The item at p passes from s and caps to s1 and caps1 whatever the counts. */
  ghost predicate Passes(pat: Str, src: Str, p: nat, s: nat, caps: seq<Cap>, next: nat, s1: nat, caps1: seq<Cap>)
    requires s <= |src| && s1 <= |src|
  {
    && ParseAt(pat, p).It? && !ParseAt(pat, p).item.Single? && ParseAt(pat, p).next == next && s <= s1
    && forall counts :: Run(pat, src, p, s, caps, counts) == Run(pat, src, next, s1, caps1, counts)
  }

  lemma Passed(pat: Str, src: Str, p: nat, s: nat, caps: seq<Cap>, next: nat, s1: nat, caps1: seq<Cap>, caps': seq<Cap>, r: Outcome)
    requires s <= |src| && s1 <= |src| && Passes(pat, src, p, s, caps, next, s1, caps1)
    requires Achieved(pat, src, next, s1, caps1, if r.Null? then caps1 else caps', r) && (r.Null? ==> caps' == caps)
    ensures Achieved(pat, src, p, s, caps, caps', r)
  {
    hide Run;
    if !r.Null? {
      var a: Answer := Some(if r.Error? then BadPattern else Matched(r.e, caps'));
      var counts :| Run(pat, src, next, s1, caps1, counts) == a && IsFirst(pat, src, next, s1, caps1, counts);
      forall other | Run(pat, src, p, s, caps, other).Some? ensures !Before(pat, p, other, counts) {
        assert Run(pat, src, next, s1, caps1, other).Some?;
      }
      assert Run(pat, src, p, s, caps, counts) == a && IsFirst(pat, src, p, s, caps, counts);
    }
  }

  /** An error that is met at once. */
  lemma Raises(pat: Str, src: Str, p: nat, s: nat, caps: seq<Cap>)
    requires s <= |src| && (forall counts :: Run(pat, src, p, s, caps, counts) == Raised(counts))
    ensures Achieved(pat, src, p, s, caps, caps, Error)
  {
    hide Run;
    assert Run(pat, src, p, s, caps, []) == Some(BadPattern);
    forall other | Run(pat, src, p, s, caps, other).Some? ensures !Before(pat, p, other, []) {
      assert other == [];
      NeverBefore(pat, p);
    }
    assert IsFirst(pat, src, p, s, caps, []);
  }

  lemma {:induction false} NeverBefore(pat: Str, p: nat)
    ensures !Before(pat, p, [], [])
    decreases |pat| - p
  {
    if ParseAt(pat, p).It? { NeverBefore(pat, ParseAt(pat, p).next); }
  }

  lemma AtEnd(pat: Str, src: Str, p: nat, s: nat, caps: seq<Cap>)
    requires s <= |src| && At(pat, p) == 0
    ensures Achieved(pat, src, p, s, caps, caps, Pos(s))
  {
    assert ParseAt(pat, p) == End;
    assert Run(pat, src, p, s, caps, []) == Some(Matched(s, caps));
    assert IsFirst(pat, src, p, s, caps, []);
  }

  lemma AtAnchor(pat: Str, src: Str, p: nat, s: nat, caps: seq<Cap>)
    requires s <= |src| && p <= |pat| && At(pat, p) == C('$') && At(pat, p + 1) == 0
    ensures Achieved(pat, src, p, s, caps, caps, if s == |src| then Pos(s) else Null)
  {
    assert ParseAt(pat, p) == It(Anchor, p + 1);
    if s == |src| {
      AtEnd(pat, src, p + 1, s, caps);
      Passed(pat, src, p, s, caps, p + 1, s, caps, caps, Pos(s));
    }
  }

  lemma Malformed(pat: Str, src: Str, p: nat, s: nat, caps: seq<Cap>)
    requires s <= |src| && ParseAt(pat, p).Bad?
    ensures Achieved(pat, src, p, s, caps, caps, Error)
  {
    hide ParseAt;
    Raises(pat, src, p, s, caps);
  }

  lemma TooMany(pat: Str, src: Str, p: nat, s: nat, caps: seq<Cap>)
    requires s <= |src| && ParseAt(pat, p).It? && (ParseAt(pat, p).item.Open? || ParseAt(pat, p).item.PosOpen?) && |caps| >= MAXCAPTURES
    ensures Achieved(pat, src, p, s, caps, caps, Error)
  {
    hide ParseAt;
    Raises(pat, src, p, s, caps);
  }

  lemma Opened(pat: Str, src: Str, p: nat, s: nat, caps: seq<Cap>, what: int, caps': seq<Cap>, r: Outcome)
    requires s <= |src| && |caps| < MAXCAPTURES && ParseAt(pat, p).It? && (what == CAP_POSITION || what == CAP_UNFINISHED)
    requires ParseAt(pat, p).item == if what == CAP_POSITION then PosOpen else Open
    requires Achieved(pat, src, ParseAt(pat, p).next, s, caps + [Cap(s, what)], if r.Null? then caps + [Cap(s, what)] else caps', r)
    requires r.Null? ==> caps' == caps
    ensures Achieved(pat, src, p, s, caps, caps', r)
  {
    var next := ParseAt(pat, p).next;
    assert Kinds(caps + [Cap(s, what)]) == Kinds(caps) + [if what == CAP_POSITION then Position else Unfinished];
    Passed(pat, src, p, s, caps, next, s, caps + [Cap(s, what)], caps', r);
  }

  lemma KindsAt(caps: seq<Cap>, l: int)
    requires l == LastOpen(Kinds(caps)) >= 0
    ensures l < |caps| && caps[l].len == CAP_UNFINISHED
  {
  }

  lemma NoneOpen(pat: Str, src: Str, p: nat, s: nat, caps: seq<Cap>)
    requires s <= |src| && ParseAt(pat, p).It? && ParseAt(pat, p).item.Close? && LastOpen(Kinds(caps)) < 0
    ensures Achieved(pat, src, p, s, caps, caps, Error)
  {
    hide ParseAt;
    Raises(pat, src, p, s, caps);
  }

  lemma ClosedAt(pat: Str, src: Str, p: nat, s: nat, caps: seq<Cap>, l: int, caps': seq<Cap>, r: Outcome)
    requires s <= |src| && ParseAt(pat, p).It? && ParseAt(pat, p).item.Close? && l == LastOpen(Kinds(caps)) && 0 <= l < |caps| && caps[l].init <= s
    requires var closed := caps[l := Cap(caps[l].init, s - caps[l].init)];
      Achieved(pat, src, ParseAt(pat, p).next, s, closed, if r.Null? then closed else caps', r)
    requires r.Null? ==> caps' == caps
    ensures Achieved(pat, src, p, s, caps, caps', r)
  {
    var closed := caps[l := Cap(caps[l].init, s - caps[l].init)];
    assert Kinds(closed) == Kinds(caps)[l := Closed];
    Passed(pat, src, p, s, caps, ParseAt(pat, p).next, s, closed, caps', r);
  }

  lemma Unbalanced(pat: Str, src: Str, p: nat, s: nat, caps: seq<Cap>)
    requires s <= |src| && ParseAt(pat, p).It? && ParseAt(pat, p).item.Balance?
    requires At(src, s) != ParseAt(pat, p).item.x || BalanceEnd(src, Past(src, s), ParseAt(pat, p).item.x, ParseAt(pat, p).item.y, 1).None?
    ensures Achieved(pat, src, p, s, caps, caps, Null)
  {
  }

  lemma Balanced(pat: Str, src: Str, p: nat, s: nat, e: nat, caps: seq<Cap>, caps': seq<Cap>, r: Outcome)
    requires s <= |src| && ParseAt(pat, p).It? && ParseAt(pat, p).item.Balance?
    requires At(src, s) == ParseAt(pat, p).item.x && BalanceEnd(src, Past(src, s), ParseAt(pat, p).item.x, ParseAt(pat, p).item.y, 1) == Some(e)
    requires Achieved(pat, src, ParseAt(pat, p).next, e, caps, caps', r)
    ensures Achieved(pat, src, p, s, caps, caps', r)
  {
    Passed(pat, src, p, s, caps, ParseAt(pat, p).next, e, caps, caps', r);
  }

  lemma NoFrontier(pat: Str, src: Str, p: nat, s: nat, caps: seq<Cap>)
    requires s <= |src| && ParseAt(pat, p).It? && ParseAt(pat, p).item.Frontier?
    requires !AtFrontier(pat, src, ParseAt(pat, p).item.b, ParseAt(pat, p).item.ep, s)
    ensures Achieved(pat, src, p, s, caps, caps, Null)
  {
  }

  lemma FrontierPassed(pat: Str, src: Str, p: nat, s: nat, caps: seq<Cap>, caps': seq<Cap>, r: Outcome)
    requires s <= |src| && ParseAt(pat, p).It? && ParseAt(pat, p).item.Frontier?
    requires AtFrontier(pat, src, ParseAt(pat, p).item.b, ParseAt(pat, p).item.ep, s)
    requires Achieved(pat, src, ParseAt(pat, p).next, s, caps, caps', r)
    ensures Achieved(pat, src, p, s, caps, caps', r)
  {
    Passed(pat, src, p, s, caps, ParseAt(pat, p).next, s, caps, caps', r);
  }

  lemma BadIndex(pat: Str, src: Str, p: nat, s: nat, caps: seq<Cap>, l: int)
    requires s <= |src| && ParseAt(pat, p).It? && ParseAt(pat, p).item == Back(l)
    requires l < 0 || l >= |caps| || caps[l].len == CAP_UNFINISHED
    ensures Achieved(pat, src, p, s, caps, caps, Error)
  {
    hide ParseAt;
    Raises(pat, src, p, s, caps);
  }

  lemma NotAgain(pat: Str, src: Str, p: nat, s: nat, caps: seq<Cap>, l: int)
    requires s <= |src| && ParseAt(pat, p).It? && ParseAt(pat, p).item == Back(l) && 0 <= l < |caps| && caps[l].len != CAP_UNFINISHED && !Recurs(src, caps[l], s)
    ensures Achieved(pat, src, p, s, caps, caps, Null)
  {
  }

  lemma BackPassed(pat: Str, src: Str, p: nat, s: nat, caps: seq<Cap>, l: int, caps': seq<Cap>, r: Outcome)
    requires s <= |src| && ParseAt(pat, p).It? && ParseAt(pat, p).item == Back(l) && 0 <= l < |caps|
    requires caps[l].len != CAP_UNFINISHED && Recurs(src, caps[l], s)
    requires Achieved(pat, src, ParseAt(pat, p).next, s + caps[l].len, caps, caps', r)
    ensures Achieved(pat, src, p, s, caps, caps', r)
  {
    Passed(pat, src, p, s, caps, ParseAt(pat, p).next, s + caps[l].len, caps, caps', r);
  }

  // ---- Items that repeat -------------------------------------------------------------------

  lemma OneMore(pat: Str, src: Str, b: nat, ep: nat, s: nat, k: nat)
    requires b < ep && s + k <= |src|
    ensures Repeats(pat, src, b, ep, s, 0)
    ensures Repeats(pat, src, b, ep, s, k) && s + k < |src| && SingleMatch(pat, b, ep, src[s+k]) ==> Repeats(pat, src, b, ep, s, k + 1)
    ensures Repeats(pat, src, b, ep, s, k + 1) ==> s + k < |src| && SingleMatch(pat, b, ep, src[s+k])
  {
  }

  lemma OneLess(pat: Str, src: Str, b: nat, ep: nat, s: nat, k: nat)
    requires b < ep && Repeats(pat, src, b, ep, s, k)
    ensures k > 0 ==> Repeats(pat, src, b, ep, s, k - 1)
  {
  }

  /** Beyond a repetition that does not match there is none that does. */
  lemma NoMore(pat: Str, src: Str, b: nat, ep: nat, s: nat, k: nat)
    requires b < ep && !Repeats(pat, src, b, ep, s, k + 1)
    ensures forall k' :: k' > k ==> !Repeats(pat, src, b, ep, s, k')
  {
  }

  /** The count k is possible for the item at p. */
  predicate Possible(pat: Str, src: Str, p: nat, s: nat, k: nat)
    requires ParseAt(pat, p).It? && ParseAt(pat, p).item.Single?
  {
    var i := ParseAt(pat, p).item;
    i.lo <= k && (i.bounded ==> k <= 1) && Repeats(pat, src, i.b, i.ep, s, k)
  }

  /** The call with k repetitions gives the answer, when those that are tried before it fail. */
  lemma Counted(pat: Str, src: Str, p: nat, s: nat, k: nat, caps: seq<Cap>, caps': seq<Cap>, r: Outcome)
    requires s <= |src| && ParseAt(pat, p).It? && ParseAt(pat, p).item.Single? && Possible(pat, src, p, s, k)
    requires Achieved(pat, src, ParseAt(pat, p).next, s + k, caps, caps', r)
    requires forall k': nat :: Possible(pat, src, p, s, k') && (if ParseAt(pat, p).item.lazy then k' < k else k' > k) ==>
               Answers(pat, src, ParseAt(pat, p).next, s + k', caps, None)
    requires r.Null? ==> forall k': nat :: Possible(pat, src, p, s, k') && k' != k ==> Answers(pat, src, ParseAt(pat, p).next, s + k', caps, None)
    ensures Achieved(pat, src, p, s, caps, caps', r)
  {
    var next := ParseAt(pat, p).next;
    if r.Null? {
      NoCount(pat, src, p, s, caps);
    } else {
      var a: Answer := Some(if r.Error? then BadPattern else Matched(r.e, caps'));
      var counts :| Run(pat, src, next, s + k, caps, counts) == a && IsFirst(pat, src, next, s + k, caps, counts);
      CountFirst(pat, src, p, s, k, caps, counts, a);
    }
  }

  lemma CountFirst(pat: Str, src: Str, p: nat, s: nat, k: nat, caps: seq<Cap>, counts: seq<nat>, a: Answer)
    requires s <= |src| && ParseAt(pat, p).It? && ParseAt(pat, p).item.Single? && Possible(pat, src, p, s, k) && a.Some?
    requires Run(pat, src, ParseAt(pat, p).next, s + k, caps, counts) == a && IsFirst(pat, src, ParseAt(pat, p).next, s + k, caps, counts)
    requires forall k': nat :: Possible(pat, src, p, s, k') && (if ParseAt(pat, p).item.lazy then k' < k else k' > k) ==>
               Answers(pat, src, ParseAt(pat, p).next, s + k', caps, None)
    ensures Run(pat, src, p, s, caps, [k] + counts) == a && IsFirst(pat, src, p, s, caps, [k] + counts)
  {
    var next := ParseAt(pat, p).next;
    assert ([k] + counts)[1..] == counts;
    forall other | Run(pat, src, p, s, caps, other).Some? ensures !Before(pat, p, other, [k] + counts) {
      assert Possible(pat, src, p, s, other[0]);
      assert Run(pat, src, next, s + other[0], caps, other[1..]).Some?;
    }
  }

  lemma NoCount(pat: Str, src: Str, p: nat, s: nat, caps: seq<Cap>)
    requires s <= |src| && ParseAt(pat, p).It? && ParseAt(pat, p).item.Single?
    requires forall k :: Possible(pat, src, p, s, k) ==> Answers(pat, src, ParseAt(pat, p).next, s + k, caps, None)
    ensures Achieved(pat, src, p, s, caps, caps, Null)
  {
    forall counts ensures Run(pat, src, p, s, caps, counts).None? {
      if counts != [] && Possible(pat, src, p, s, counts[0]) {
        assert Answers(pat, src, ParseAt(pat, p).next, s + counts[0], caps, None);
        assert Run(pat, src, ParseAt(pat, p).next, s + counts[0], caps, counts[1..]).None?;
      }
    }
  }

  /** An item that has to match at least once does not. */
  lemma NoRepeat(pat: Str, src: Str, p: nat, s: nat, caps: seq<Cap>)
    requires s <= |src| && ParseAt(pat, p).It? && ParseAt(pat, p).item.Single? && ParseAt(pat, p).item.lo > 0
    requires !Repeats(pat, src, ParseAt(pat, p).item.b, ParseAt(pat, p).item.ep, s, 1)
    ensures Achieved(pat, src, p, s, caps, caps, Null)
  {
    var i := ParseAt(pat, p).item;
    NoMore(pat, src, i.b, i.ep, s, 0);
    NoCount(pat, src, p, s, caps);
  }

  /** An item without a suffix. */
  lemma Once(pat: Str, src: Str, p: nat, s: nat, caps: seq<Cap>, caps': seq<Cap>, r: Outcome)
    requires s < |src| && ParseAt(pat, p).It? && ParseAt(pat, p).item.Single? && ParseAt(pat, p).item.lo == 1 && ParseAt(pat, p).item.bounded
    requires Repeats(pat, src, ParseAt(pat, p).item.b, ParseAt(pat, p).item.ep, s, 1)
    requires Achieved(pat, src, ParseAt(pat, p).next, s + 1, caps, caps', r)
    ensures Achieved(pat, src, p, s, caps, caps', r)
  {
    hide Answers, Achieved, WellFormed, Run, ParseAt;
    Counted(pat, src, p, s, 1, caps, caps', r);
  }
}
