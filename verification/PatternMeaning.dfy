/** What the characters of a pattern mean, stated on the text of the pattern. */
module PatternMeaning {
  import opened PatternSpec
  import opened PatternMatcher

  // ---- Repetition --------------------------------------------------------------------------

  /** A class for a single character goes from p to ep. */
  predicate ClassAt(pat: Str, p: nat, ep: nat) {
    && At(pat, p) !in {0, C('('), C(')')} && !(At(pat, p) == C('$') && At(pat, p + 1) == 0)
    && !(At(pat, p) == C('%') && (At(pat, p + 1) in {C('b'), C('f')} || C('0') <= At(pat, p + 1) <= C('9')))
    && ClassEnd(pat, p) == Some(ep)
  }

  /** From s on there are k characters of the class, and behind them the pattern from next on gives r. */
  ghost predicate Behind(pat: Str, src: Str, b: nat, ep: nat, next: nat, s: nat, k: nat, caps: seq<Cap>, r: Answer)
    requires b < ep
  {
    s + k <= |src| && (forall i :: s <= i < s + k ==> SingleMatch(pat, b, ep, src[i])) && Answers(pat, src, next, s + k, caps, r)
  }

  /** Behind k characters of the class, if there are so many, the pattern from next on does not match. */
  ghost predicate NotBehind(pat: Str, src: Str, b: nat, ep: nat, next: nat, s: nat, k: nat, caps: seq<Cap>)
    requires b < ep
  {
    s + k <= |src| && (forall i :: s <= i < s + k ==> SingleMatch(pat, b, ep, src[i])) ==> Answers(pat, src, next, s + k, caps, None)
  }

  lemma ClassIsSingle(pat: Str, p: nat, ep: nat)
    requires ClassAt(pat, p, ep)
    ensures p < ep <= |pat| && ParseAt(pat, p) == ParseSingle(pat, p) && ParseAt(pat, p).It? && ParseAt(pat, p).item.Single?
    ensures ParseAt(pat, p).item.b == p && ParseAt(pat, p).item.ep == ep
  {
    hide ClassEnd;
  }

  /** An answer is the answer behind some count, the first one in the order of trying. */
  lemma SomeCount(pat: Str, src: Str, p: nat, s: nat, caps: seq<Cap>, r: Answer)
    requires s <= |src| && ParseAt(pat, p).It? && ParseAt(pat, p).item.Single? && Answers(pat, src, p, s, caps, r)
    ensures var next, lazy := ParseAt(pat, p).next, ParseAt(pat, p).item.lazy;
      if r.None? then forall k: nat :: Possible(pat, src, p, s, k) ==> Answers(pat, src, next, s + k, caps, None)
      else exists k: nat :: Possible(pat, src, p, s, k) && Answers(pat, src, next, s + k, caps, r) &&
             forall k': nat :: Possible(pat, src, p, s, k') && (if lazy then k' < k else k' > k) ==> Answers(pat, src, next, s + k', caps, None)
  {
    hide SingleMatch, ParseAt, AtFrontier, Recurs, Kinds;
    var next, lazy := ParseAt(pat, p).next, ParseAt(pat, p).item.lazy;
    forall k: nat, cs | Possible(pat, src, p, s, k)
      ensures Run(pat, src, p, s, caps, [k] + cs) == Run(pat, src, next, s + k, caps, cs)
    {
      assert ([k] + cs)[1..] == cs;
    }
    if r.Some? {
      var counts :| Run(pat, src, p, s, caps, counts) == r && IsFirst(pat, src, p, s, caps, counts);
      var k, rest := counts[0], counts[1..];
      forall other | Run(pat, src, next, s + k, caps, other).Some? ensures !Before(pat, next, other, rest) {
        assert Run(pat, src, p, s, caps, [k] + other).Some? && ([k] + other)[1..] == other;
      }
      assert Run(pat, src, next, s + k, caps, rest) == r && IsFirst(pat, src, next, s + k, caps, rest);
      forall k': nat | Possible(pat, src, p, s, k') && (if lazy then k' < k else k' > k) ensures Answers(pat, src, next, s + k', caps, None) {
        var s' := s + k';
        forall cs ensures Run(pat, src, next, s', caps, cs).None? {
          assert Run(pat, src, p, s, caps, [k'] + cs).Some? ==> !Before(pat, p, [k'] + cs, counts);
        }
      }
      assert Possible(pat, src, p, s, k) && Answers(pat, src, next, s + k, caps, r);
    } else {
      forall k: nat | Possible(pat, src, p, s, k) ensures Answers(pat, src, next, s + k, caps, None) {
        var s' := s + k;
        forall cs ensures Run(pat, src, next, s', caps, cs).None? {
          assert Run(pat, src, p, s, caps, [k] + cs).None?;
        }
      }
    }
  }

  /** The other way round. */
  lemma CountAnswers(pat: Str, src: Str, p: nat, s: nat, k: nat, caps: seq<Cap>, r: Answer)
    requires s <= |src| && ParseAt(pat, p).It? && ParseAt(pat, p).item.Single? && Possible(pat, src, p, s, k) && r.Some?
    requires Answers(pat, src, ParseAt(pat, p).next, s + k, caps, r)
    requires forall k': nat :: Possible(pat, src, p, s, k') && (if ParseAt(pat, p).item.lazy then k' < k else k' > k) ==>
               Answers(pat, src, ParseAt(pat, p).next, s + k', caps, None)
    ensures Answers(pat, src, p, s, caps, r)
  {
    hide Run, IsFirst, ParseAt;
    var next := ParseAt(pat, p).next;
    var counts :| Run(pat, src, next, s + k, caps, counts) == r && IsFirst(pat, src, next, s + k, caps, counts);
    CountFirst(pat, src, p, s, k, caps, counts, r);
  }

  lemma NoCountAnswers(pat: Str, src: Str, p: nat, s: nat, caps: seq<Cap>)
    requires s <= |src| && ParseAt(pat, p).It? && ParseAt(pat, p).item.Single?
    requires forall k: nat :: Possible(pat, src, p, s, k) ==> Answers(pat, src, ParseAt(pat, p).next, s + k, caps, None)
    ensures Answers(pat, src, p, s, caps, None)
  {
    hide Run, ParseAt, Possible, Answers;
    NoCount(pat, src, p, s, caps);
  }

  /** k is the first count allowed behind which the rest matches. */
  ghost predicate FirstCount(pat: Str, src: Str, b: nat, ep: nat, next: nat, s: nat, caps: seq<Cap>, r: Answer, i: Item, k: nat)
    requires b < ep && i.Single?
  {
    && i.lo <= k && (i.bounded ==> k <= 1) && Behind(pat, src, b, ep, next, s, k, caps, r)
    && forall k': nat :: i.lo <= k' && (i.bounded ==> k' <= 1) && (if i.lazy then k' < k else k' > k) ==> NotBehind(pat, src, b, ep, next, s, k', caps)
  }

  /** In terms of the counts that are possible. */
  lemma BehindPossible(pat: Str, src: Str, p: nat, ep: nat, next: nat, s: nat, k: nat, caps: seq<Cap>, r: Answer)
    requires s <= |src| && ParseAt(pat, p).It? && ParseAt(pat, p).item.Single? && ParseAt(pat, p).item.b == p < ParseAt(pat, p).item.ep == ep
    requires var i := ParseAt(pat, p).item; i.lo <= k && (i.bounded ==> k <= 1)
    ensures Possible(pat, src, p, s, k) ==> s + k <= |src|
    ensures Behind(pat, src, p, ep, next, s, k, caps, r) <==> Possible(pat, src, p, s, k) && Answers(pat, src, next, s + k, caps, r)
    ensures NotBehind(pat, src, p, ep, next, s, k, caps) <==> (Possible(pat, src, p, s, k) ==> Answers(pat, src, next, s + k, caps, None))
  {
    hide ParseAt, SingleMatch, Answers;
  }

  lemma PossibleBounds(pat: Str, src: Str, p: nat, s: nat, k: nat)
    requires ParseAt(pat, p).It? && ParseAt(pat, p).item.Single? && Possible(pat, src, p, s, k)
    ensures var i := ParseAt(pat, p).item; i.lo <= k && (i.bounded ==> k <= 1) && s + k <= |src|
  {
  }

  lemma RepeatedFails(pat: Str, src: Str, p: nat, ep: nat, s: nat, caps: seq<Cap>)
    requires s <= |src| && ClassAt(pat, p, ep)
    ensures var i, next := ParseAt(pat, p).item, ParseAt(pat, p).next;
      Answers(pat, src, p, s, caps, None) <==> forall k: nat :: i.lo <= k && (i.bounded ==> k <= 1) ==> NotBehind(pat, src, p, ep, next, s, k, caps)
  {
    ClassIsSingle(pat, p, ep);
    hide ParseAt, ClassAt, Answers;
    hide SingleMatch, Possible, Behind, NotBehind;
    var i, next := ParseAt(pat, p).item, ParseAt(pat, p).next;
    if Answers(pat, src, p, s, caps, None) {
      SomeCount(pat, src, p, s, caps, None);
      forall k: nat | i.lo <= k && (i.bounded ==> k <= 1) ensures NotBehind(pat, src, p, ep, next, s, k, caps) {
        BehindPossible(pat, src, p, ep, next, s, k, caps, None);
      }
    }
    if forall k: nat :: i.lo <= k && (i.bounded ==> k <= 1) ==> NotBehind(pat, src, p, ep, next, s, k, caps) {
      forall k: nat | Possible(pat, src, p, s, k) ensures Answers(pat, src, next, s + k, caps, None) {
        assert i.lo <= k && (i.bounded ==> k <= 1) by { PossibleBounds(pat, src, p, s, k); }
        BehindPossible(pat, src, p, ep, next, s, k, caps, None);
      }
      NoCountAnswers(pat, src, p, s, caps);
    }
  }

  lemma RepeatedMatches(pat: Str, src: Str, p: nat, ep: nat, s: nat, caps: seq<Cap>, r: Answer)
    requires s <= |src| && ClassAt(pat, p, ep) && r.Some?
    ensures ParseAt(pat, p).It? && ParseAt(pat, p).item.Single? && p < ep
    ensures Answers(pat, src, p, s, caps, r) <==> exists k: nat :: FirstCount(pat, src, p, ep, ParseAt(pat, p).next, s, caps, r, ParseAt(pat, p).item, k)
  {
    ClassIsSingle(pat, p, ep);
    hide ParseAt, ClassAt, Answers;
    hide SingleMatch, Possible, Behind, NotBehind;
    var i, next := ParseAt(pat, p).item, ParseAt(pat, p).next;
    if Answers(pat, src, p, s, caps, r) {
      SomeCount(pat, src, p, s, caps, r);
      var k: nat :| Possible(pat, src, p, s, k) && Answers(pat, src, next, s + k, caps, r) &&
        forall k': nat :: Possible(pat, src, p, s, k') && (if i.lazy then k' < k else k' > k) ==> Answers(pat, src, next, s + k', caps, None);
      PossibleBounds(pat, src, p, s, k);
      BehindPossible(pat, src, p, ep, next, s, k, caps, r);
      forall k': nat | i.lo <= k' && (i.bounded ==> k' <= 1) && (if i.lazy then k' < k else k' > k) ensures NotBehind(pat, src, p, ep, next, s, k', caps) {
        BehindPossible(pat, src, p, ep, next, s, k', caps, None);
      }
      assert FirstCount(pat, src, p, ep, next, s, caps, r, i, k);
    }
    if exists k: nat :: FirstCount(pat, src, p, ep, next, s, caps, r, i, k) {
      var k: nat :| FirstCount(pat, src, p, ep, next, s, caps, r, i, k);
      forall k': nat | Possible(pat, src, p, s, k') && (if i.lazy then k' < k else k' > k) ensures Answers(pat, src, next, s + k', caps, None) {
        PossibleBounds(pat, src, p, s, k');
        BehindPossible(pat, src, p, ep, next, s, k', caps, None);
      }
      BehindPossible(pat, src, p, ep, next, s, k, caps, r);
      CountAnswers(pat, src, p, s, k, caps, r);
    }
  }

  /** `*`: the most characters behind which the rest of the pattern matches. */
  lemma Star(pat: Str, src: Str, p: nat, ep: nat, next: nat, s: nat, caps: seq<Cap>, r: Answer)
    requires s <= |src| && p < ep && ClassAt(pat, p, ep) && At(pat, ep) == C('*') && next == ep + 1
    ensures r.None? ==> (Answers(pat, src, p, s, caps, r) <==> forall k: nat :: NotBehind(pat, src, p, ep, next, s, k, caps))
    ensures r.Some? ==> (Answers(pat, src, p, s, caps, r) <==>
      exists k: nat :: Behind(pat, src, p, ep, next, s, k, caps, r) && forall more: nat :: more > k ==> NotBehind(pat, src, p, ep, next, s, more, caps))
  {
    hide ClassEnd, Answers, SingleMatch;
    ClassIsSingle(pat, p, ep);
    assert ParseAt(pat, p).item == Single(p, ep, 0, false, false) && ParseAt(pat, p).next == next;
    hide ParseAt, ParseSingle, ClassAt;
    hide Behind, NotBehind;
    if r.None? {
      RepeatedFails(pat, src, p, ep, s, caps);
    } else {
      RepeatedMatches(pat, src, p, ep, s, caps, r);
      var i := ParseAt(pat, p).item;
      forall k: nat ensures FirstCount(pat, src, p, ep, next, s, caps, r, i, k) <==>
        Behind(pat, src, p, ep, next, s, k, caps, r) && forall more: nat :: more > k ==> NotBehind(pat, src, p, ep, next, s, more, caps) {
      }
    }
  }

  /** `-`: the fewest. */
  lemma Minus(pat: Str, src: Str, p: nat, ep: nat, next: nat, s: nat, caps: seq<Cap>, r: Answer)
    requires s <= |src| && p < ep && ClassAt(pat, p, ep) && At(pat, ep) == C('-') && next == ep + 1
    ensures r.None? ==> (Answers(pat, src, p, s, caps, r) <==> forall k: nat :: NotBehind(pat, src, p, ep, next, s, k, caps))
    ensures r.Some? ==> (Answers(pat, src, p, s, caps, r) <==>
      exists k: nat :: Behind(pat, src, p, ep, next, s, k, caps, r) && forall fewer: nat :: fewer < k ==> NotBehind(pat, src, p, ep, next, s, fewer, caps))
  {
    hide ClassEnd, Answers, SingleMatch;
    ClassIsSingle(pat, p, ep);
    assert ParseAt(pat, p).item == Single(p, ep, 0, false, true) && ParseAt(pat, p).next == next;
    hide ParseAt, ParseSingle, ClassAt;
    hide Behind, NotBehind;
    if r.None? {
      RepeatedFails(pat, src, p, ep, s, caps);
    } else {
      RepeatedMatches(pat, src, p, ep, s, caps, r);
      var i := ParseAt(pat, p).item;
      forall k: nat ensures FirstCount(pat, src, p, ep, next, s, caps, r, i, k) <==>
        Behind(pat, src, p, ep, next, s, k, caps, r) && forall fewer: nat :: fewer < k ==> NotBehind(pat, src, p, ep, next, s, fewer, caps) {
      }
    }
  }

  /** `+`: the most, but one at least. */
  lemma Plus(pat: Str, src: Str, p: nat, ep: nat, next: nat, s: nat, caps: seq<Cap>, r: Answer)
    requires s <= |src| && p < ep && ClassAt(pat, p, ep) && At(pat, ep) == C('+') && next == ep + 1
    ensures r.None? ==> (Answers(pat, src, p, s, caps, r) <==> forall k: nat :: k > 0 ==> NotBehind(pat, src, p, ep, next, s, k, caps))
    ensures r.Some? ==> (Answers(pat, src, p, s, caps, r) <==>
      exists k: nat :: k > 0 && Behind(pat, src, p, ep, next, s, k, caps, r) && forall more: nat :: more > k ==> NotBehind(pat, src, p, ep, next, s, more, caps))
  {
    hide ClassEnd, Answers, SingleMatch;
    ClassIsSingle(pat, p, ep);
    assert ParseAt(pat, p).item == Single(p, ep, 1, false, false) && ParseAt(pat, p).next == next;
    hide ParseAt, ParseSingle, ClassAt;
    hide Behind, NotBehind;
    if r.None? {
      RepeatedFails(pat, src, p, ep, s, caps);
    } else {
      RepeatedMatches(pat, src, p, ep, s, caps, r);
      var i := ParseAt(pat, p).item;
      forall k: nat ensures FirstCount(pat, src, p, ep, next, s, caps, r, i, k) <==>
        k > 0 && Behind(pat, src, p, ep, next, s, k, caps, r) && forall more: nat :: more > k ==> NotBehind(pat, src, p, ep, next, s, more, caps) {
      }
    }
  }

  /** `?`: one character of the class if the rest matches behind it, else none. */
  lemma Question(pat: Str, src: Str, p: nat, ep: nat, s: nat, caps: seq<Cap>, r: Answer)
    requires s <= |src| && p < ep && ClassAt(pat, p, ep) && At(pat, ep) == C('?')
    ensures s < |src| && SingleMatch(pat, p, ep, src[s]) && !Answers(pat, src, ep + 1, s + 1, caps, None) ==>
      (Answers(pat, src, p, s, caps, r) <==> Answers(pat, src, ep + 1, s + 1, caps, r))
    ensures !(s < |src| && SingleMatch(pat, p, ep, src[s]) && !Answers(pat, src, ep + 1, s + 1, caps, None)) ==>
      (Answers(pat, src, p, s, caps, r) <==> Answers(pat, src, ep + 1, s, caps, r))
  {
    hide ClassEnd, Answers, SingleMatch;
    ClassIsSingle(pat, p, ep);
    assert ParseAt(pat, p).item == Single(p, ep, 0, true, false) && ParseAt(pat, p).next == ep + 1;
    hide ParseAt, ParseSingle, ClassAt;
    var next := ep + 1;
    NoneOrOne(pat, src, p, ep, next, s, caps, r);
    NoneOrOne(pat, src, p, ep, next, s, caps, None);
    hide Behind, NotBehind;
    if r.None? {
      RepeatedFails(pat, src, p, ep, s, caps);
      assert Answers(pat, src, p, s, caps, r) <==> NotBehind(pat, src, p, ep, next, s, 0, caps) && NotBehind(pat, src, p, ep, next, s, 1, caps);
    } else {
      RepeatedMatches(pat, src, p, ep, s, caps, r);
      var i := ParseAt(pat, p).item;
      assert FirstCount(pat, src, p, ep, next, s, caps, r, i, 0) <==> Behind(pat, src, p, ep, next, s, 0, caps, r) && NotBehind(pat, src, p, ep, next, s, 1, caps);
      assert FirstCount(pat, src, p, ep, next, s, caps, r, i, 1) <==> Behind(pat, src, p, ep, next, s, 1, caps, r);
      assert Answers(pat, src, p, s, caps, r) <==> FirstCount(pat, src, p, ep, next, s, caps, r, i, 0) || FirstCount(pat, src, p, ep, next, s, caps, r, i, 1);
    }
  }

  lemma SomeOrNone(pat: Str, src: Str, p: nat, s: nat, caps: seq<Cap>, r: Answer)
    requires s <= |src| && r.Some?
    ensures !(Answers(pat, src, p, s, caps, r) && Answers(pat, src, p, s, caps, None))
  {
    hide Run, IsFirst;
  }

  lemma NoneOrOne(pat: Str, src: Str, b: nat, ep: nat, next: nat, s: nat, caps: seq<Cap>, r: Answer)
    requires b < ep && s <= |src|
    ensures Behind(pat, src, b, ep, next, s, 0, caps, r) <==> Answers(pat, src, next, s, caps, r)
    ensures NotBehind(pat, src, b, ep, next, s, 0, caps) <==> Answers(pat, src, next, s, caps, None)
    ensures Behind(pat, src, b, ep, next, s, 1, caps, r) <==> s < |src| && SingleMatch(pat, b, ep, src[s]) && Answers(pat, src, next, s + 1, caps, r)
    ensures NotBehind(pat, src, b, ep, next, s, 1, caps) <==> (s < |src| && SingleMatch(pat, b, ep, src[s]) ==> Answers(pat, src, next, s + 1, caps, None))
    ensures r.Some? && s < |src| && Answers(pat, src, next, s + 1, caps, r) ==> !Answers(pat, src, next, s + 1, caps, None)
  {
    hide SingleMatch, Answers;
    if r.Some? && s < |src| { SomeOrNone(pat, src, next, s + 1, caps, r); }
  }

  /** Without a suffix there is exactly one character of the class. */
  lemma Plain(pat: Str, src: Str, p: nat, ep: nat, s: nat, caps: seq<Cap>, r: Answer)
    requires s <= |src| && p < ep && ClassAt(pat, p, ep) && At(pat, ep) !in {C('*'), C('+'), C('-'), C('?')}
    ensures s < |src| && SingleMatch(pat, p, ep, src[s]) ==> (Answers(pat, src, p, s, caps, r) <==> Answers(pat, src, ep, s + 1, caps, r))
    ensures !(s < |src| && SingleMatch(pat, p, ep, src[s])) ==> (Answers(pat, src, p, s, caps, r) <==> r.None?)
  {
    hide ClassEnd, Answers, SingleMatch;
    ClassIsSingle(pat, p, ep);
    assert ParseAt(pat, p).item == Single(p, ep, 1, true, false) && ParseAt(pat, p).next == ep;
    hide ParseAt, ParseSingle, ClassAt;
    NoneOrOne(pat, src, p, ep, ep, s, caps, r);
    hide Behind, NotBehind;
    if r.None? {
      RepeatedFails(pat, src, p, ep, s, caps);
      assert Answers(pat, src, p, s, caps, r) <==> NotBehind(pat, src, p, ep, ep, s, 1, caps);
    } else {
      RepeatedMatches(pat, src, p, ep, s, caps, r);
      var i := ParseAt(pat, p).item;
      assert Answers(pat, src, p, s, caps, r) <==> FirstCount(pat, src, p, ep, ep, s, caps, r, i, 1);
    }
  }

  // ---- Other items -------------------------------------------------------------------------

  lemma Through(pat: Str, src: Str, p: nat, s: nat, caps: seq<Cap>, next: nat, s1: nat, caps1: seq<Cap>, r: Answer)
    requires s <= |src| && s1 <= |src| && ParseAt(pat, p).It? && !ParseAt(pat, p).item.Single? && ParseAt(pat, p).next == next
    requires forall counts :: Run(pat, src, p, s, caps, counts) == Run(pat, src, next, s1, caps1, counts)
    ensures Answers(pat, src, p, s, caps, r) <==> Answers(pat, src, next, s1, caps1, r)
  {
    hide Run, ParseAt;
    forall counts ensures IsFirst(pat, src, p, s, caps, counts) <==> IsFirst(pat, src, next, s1, caps1, counts) {
      forall other ensures Before(pat, p, other, counts) == Before(pat, next, other, counts) { }
    }
  }

  lemma Blocked(pat: Str, src: Str, p: nat, s: nat, caps: seq<Cap>, r: Answer)
    requires s <= |src| && forall counts :: Run(pat, src, p, s, caps, counts).None?
    ensures Answers(pat, src, p, s, caps, r) <==> r.None?
  {
    hide Run;
  }

  lemma Raising(pat: Str, src: Str, p: nat, s: nat, caps: seq<Cap>, r: Answer)
    requires s <= |src| && forall counts :: Run(pat, src, p, s, caps, counts) == Raised(counts)
    ensures Answers(pat, src, p, s, caps, r) <==> r == Some(BadPattern)
  {
    hide Run;
    Raises(pat, src, p, s, caps);
    assert Run(pat, src, p, s, caps, []) == Some(BadPattern);
  }

  /** What is no class, `%` at the end, a set without its bracket, `%b` without two delimiters and
      `%f` without a set are errors when they are met. */
  lemma Malformations(pat: Str, src: Str, p: nat, s: nat, caps: seq<Cap>, r: Answer)
    requires s <= |src| && (
      || (At(pat, p) == C('%') && At(pat, p + 1) == 0)
      || (At(pat, p) == C('[') && p + 1 <= |pat| && C(']') !in pat[p+1..])
      || (At(pat, p) == C('%') && At(pat, p + 1) == C('b') && (At(pat, p + 2) == 0 || At(pat, p + 3) == 0))
      || (At(pat, p) == C('%') && At(pat, p + 1) == C('f') && At(pat, p + 2) != C('[')))
    ensures (Answers(pat, src, p, s, caps, r) <==> r == Some(BadPattern)) && !WellFormed(pat, p, Kinds(caps))
  {
    if At(pat, p) == C('[') { Unclosed(pat, if At(pat, p + 1) == C('^') then p + 2 else p + 1); }
    assert ParseAt(pat, p).Bad?;
    hide ParseAt, Answers;
    Raising(pat, src, p, s, caps, r);
  }

  lemma {:induction false} Unclosed(pat: Str, q: nat)
    requires q > |pat| || C(']') !in pat[q..]
    ensures SetEnd(pat, q) == None
    decreases |pat| - q
  {
    if At(pat, q) != 0 {
      var q1 := if At(pat, q) == C('%') && At(pat, q + 1) != 0 then q + 2 else q + 1;
      assert q1 <= |pat| ==> pat[q1..] == pat[q..][q1-q..];
      assert At(pat, q1) != C(']') by { if q1 < |pat| { assert pat[q1..][0] == pat[q1]; } }
      Unclosed(pat, q1);
    }
  }

  /** The end of the pattern: the match ends here, with these captures. */
  lemma AtEndOfPattern(pat: Str, src: Str, p: nat, s: nat, caps: seq<Cap>, r: Answer)
    requires s <= |src| && At(pat, p) == 0
    ensures Answers(pat, src, p, s, caps, r) <==> r == Some(Matched(s, caps))
    ensures forall ks :: WellFormed(pat, p, ks)
  {
    assert Run(pat, src, p, s, caps, []) == Some(Matched(s, caps)) && IsFirst(pat, src, p, s, caps, []);
  }

  /** `$` as the last character: only at the end of the source. */
  lemma Dollar(pat: Str, src: Str, p: nat, s: nat, caps: seq<Cap>, r: Answer)
    requires s <= |src| && At(pat, p) == C('$') && At(pat, p + 1) == 0
    ensures Answers(pat, src, p, s, caps, r) <==> r == if s == |src| then Some(Matched(s, caps)) else None
    ensures forall ks :: WellFormed(pat, p, ks)
  {
    assert ParseAt(pat, p) == It(Anchor, p + 1);
    AtEndOfPattern(pat, src, p + 1, s, caps, r);
    hide ParseAt, Answers;
    if s == |src| {
      Through(pat, src, p, s, caps, p + 1, s, caps, r);
    } else {
      Blocked(pat, src, p, s, caps, r);
    }
  }

  /** `(` opens a capture at s, `()` captures the position; there may be 32 captures. */
  lemma Opening(pat: Str, src: Str, p: nat, s: nat, caps: seq<Cap>, r: Answer)
    requires s <= |src| && At(pat, p) == C('(')
    ensures |caps| >= 32 ==> (Answers(pat, src, p, s, caps, r) <==> r == Some(BadPattern)) && !WellFormed(pat, p, Kinds(caps))
    ensures |caps| < 32 ==>
      var position := At(pat, p + 1) == C(')');
      var next, caps1 := if position then p + 2 else p + 1, caps + [Cap(s, if position then -2 else -1)];
      && (Answers(pat, src, p, s, caps, r) <==> Answers(pat, src, next, s, caps1, r))
      && (WellFormed(pat, p, Kinds(caps)) <==> WellFormed(pat, next, Kinds(caps1)))
  {
    var position := At(pat, p + 1) == C(')');
    var next, caps1 := if position then p + 2 else p + 1, caps + [Cap(s, if position then -2 else -1)];
    assert ParseAt(pat, p) == It(if position then PosOpen else Open, next);
    hide ParseAt, Answers;
    if |caps| < 32 {
      assert Kinds(caps1) == Kinds(caps) + [if position then Position else Unfinished];
      Through(pat, src, p, s, caps, next, s, caps1, r);
    } else {
      Raising(pat, src, p, s, caps, r);
    }
  }

  /** `)` closes the capture that has been opened last and not been closed. */
  lemma Closing(pat: Str, src: Str, p: nat, s: nat, caps: seq<Cap>, l: nat, r: Answer)
    requires s <= |src| && At(pat, p) == C(')') && l < |caps| && caps[l].len == -1 && forall i :: l < i < |caps| ==> caps[i].len != -1
    ensures caps[l].init <= s ==>
      var caps1 := caps[l := Cap(caps[l].init, s - caps[l].init)];
      && (Answers(pat, src, p, s, caps, r) <==> Answers(pat, src, p + 1, s, caps1, r))
      && (WellFormed(pat, p, Kinds(caps)) <==> WellFormed(pat, p + 1, Kinds(caps1)))
  {
    assert ParseAt(pat, p) == It(Close, p + 1);
    hide ParseAt, Answers;
    assert LastOpen(Kinds(caps)) == l by {
      assert Kinds(caps)[l] == Unfinished;
    }
    if caps[l].init <= s {
      var caps1 := caps[l := Cap(caps[l].init, s - caps[l].init)];
      assert Kinds(caps1) == Kinds(caps)[l := Closed];
      Through(pat, src, p, s, caps, p + 1, s, caps1, r);
    }
  }

  lemma NothingToClose(pat: Str, src: Str, p: nat, s: nat, caps: seq<Cap>, r: Answer)
    requires s <= |src| && At(pat, p) == C(')') && forall i :: 0 <= i < |caps| ==> caps[i].len != -1
    ensures (Answers(pat, src, p, s, caps, r) <==> r == Some(BadPattern)) && !WellFormed(pat, p, Kinds(caps))
  {
    assert ParseAt(pat, p) == It(Close, p + 1);
    hide ParseAt, Answers;
    assert LastOpen(Kinds(caps)) == -1;
    Raising(pat, src, p, s, caps, r);
  }

  /** `%1` to `%9`: the text of a closed capture comes again. The index has to be that of a capture
      that has been closed. */
  lemma BackReference(pat: Str, src: Str, p: nat, s: nat, caps: seq<Cap>, l: int, r: Answer)
    requires s <= |src| && At(pat, p) == C('%') && C('0') <= At(pat, p + 1) <= C('9') && l == At(pat, p + 1) - C('1')
    ensures l < 0 || l >= |caps| || caps[l].len == -1 ==> (Answers(pat, src, p, s, caps, r) <==> r == Some(BadPattern)) && !WellFormed(pat, p, Kinds(caps))
    ensures 0 <= l < |caps| && caps[l].len != -1 ==>
      var len := caps[l].len;
      && (WellFormed(pat, p, Kinds(caps)) <==> WellFormed(pat, p + 2, Kinds(caps)))
      && if len >= 0 && s + len <= |src| && caps[l].init + len <= |src| && src[caps[l].init..caps[l].init + len] == src[s..s + len]
         then Answers(pat, src, p, s, caps, r) <==> Answers(pat, src, p + 2, s + len, caps, r)
         else Answers(pat, src, p, s, caps, r) <==> r.None?
  {
    assert ParseAt(pat, p) == It(Back(l), p + 2);
    hide ParseAt, Answers;
    if !(0 <= l < |caps| && caps[l].len != -1) {
      Raising(pat, src, p, s, caps, r);
    } else if Recurs(src, caps[l], s) {
      Through(pat, src, p, s, caps, p + 2, s + caps[l].len, caps, r);
    } else {
      Blocked(pat, src, p, s, caps, r);
    }
  }

  /** `%f[set]`: between a character outside the set and one inside, a zero standing for both ends
      of the source. */
  lemma FrontierItem(pat: Str, src: Str, p: nat, ep: nat, s: nat, caps: seq<Cap>, r: Answer)
    requires s <= |src| && At(pat, p) == C('%') && At(pat, p + 1) == C('f') && At(pat, p + 2) == C('[') && ClassEnd(pat, p + 2) == Some(ep)
    ensures WellFormed(pat, p, Kinds(caps)) <==> WellFormed(pat, ep, Kinds(caps))
    ensures var before, behind := if s == 0 then 0 else src[s-1], if s < |src| then src[s] else 0;
      if !InSet(pat, p + 2, ep - 1, before) && InSet(pat, p + 2, ep - 1, behind)
      then Answers(pat, src, p, s, caps, r) <==> Answers(pat, src, ep, s, caps, r)
      else Answers(pat, src, p, s, caps, r) <==> r.None?
  {
    assert ParseAt(pat, p) == It(Frontier(p + 2, ep), ep);
    hide ParseAt, Answers, InSet;
    if AtFrontier(pat, src, p + 2, ep, s) {
      Through(pat, src, p, s, caps, ep, s, caps, r);
    } else {
      Blocked(pat, src, p, s, caps, r);
    }
  }

  lemma {:induction false} OccursCount(src: Str, x: nat, i: nat, j: nat)
    requires i <= j <= |src|
    ensures Occurs(src, x, i, j) == multiset(src[i..j])[x]
    decreases j - i
  {
    if i < j {
      OccursCount(src, x, i, j - 1);
      assert src[i..j] == src[i..j-1] + [src[j-1]];
    }
  }

  /** From s on there are as many x as y for the first time at e. */
  predicate BalancedAt(src: Str, s: nat, e: nat, x: nat, y: nat) {
    && s < e <= |src| && multiset(src[s..e])[x] == multiset(src[s..e])[y]
    && forall j :: s < j < e ==> multiset(src[s..j])[x] > multiset(src[s..j])[y]
  }

  /** `%bxy` for different delimiters: an x, and up to the first place where the y have made up for
      the x. Where there is no such place the pattern does not match. */
  lemma BalanceItem(pat: Str, src: Str, p: nat, s: nat, x: nat, y: nat, caps: seq<Cap>, r: Answer)
    requires s <= |src| && At(pat, p) == C('%') && At(pat, p + 1) == C('b') && At(pat, p + 2) == x != 0 && At(pat, p + 3) == y != 0 && x != y
    ensures WellFormed(pat, p, Kinds(caps)) <==> WellFormed(pat, p + 4, Kinds(caps))
    ensures forall e :: s < |src| && src[s] == x && BalancedAt(src, s, e, x, y) ==>
      (Answers(pat, src, p, s, caps, r) <==> Answers(pat, src, p + 4, e, caps, r))
    ensures s == |src| || src[s] != x || (forall e :: !BalancedAt(src, s, e, x, y)) ==> (Answers(pat, src, p, s, caps, r) <==> r.None?)
  {
    assert ParseAt(pat, p) == It(Balance(x, y), p + 4);
    hide ParseAt, Answers;
    if s == |src| || src[s] != x {
      Blocked(pat, src, p, s, caps, r);
    } else {
      var end := BalanceEnd(src, s + 1, x, y, 1);
      FirstBalance(src, s, x, y);
      if end.Some? {
        Through(pat, src, p, s, caps, p + 4, end.value, caps, r);
        assert BalancedAt(src, s, end.value, x, y);
      } else {
        Blocked(pat, src, p, s, caps, r);
      }
    }
  }

  lemma FirstBalance(src: Str, s: nat, x: nat, y: nat)
    requires s < |src| && src[s] == x && x != y
    ensures var end := BalanceEnd(src, s + 1, x, y, 1);
      if end.Some? then forall e :: BalancedAt(src, s, e, x, y) <==> e == end.value else forall e :: !BalancedAt(src, s, e, x, y)
  {
    BalanceMeaning(src, s + 1, x, y, 1);
    var end := BalanceEnd(src, s + 1, x, y, 1);
    forall j | s < j <= |src| ensures Occurs(src, x, s + 1, j) + 1 == multiset(src[s..j])[x] && Occurs(src, y, s + 1, j) == multiset(src[s..j])[y] {
      OccursCount(src, x, s + 1, j);
      OccursCount(src, y, s + 1, j);
      assert src[s..j] == [src[s]] + src[s+1..j];
    }
    hide BalanceEnd, Occurs;
    if end.Some? {
      assert BalancedAt(src, s, end.value, x, y);
      forall e | BalancedAt(src, s, e, x, y) ensures e == end.value { }
    } else {
      forall e ensures !BalancedAt(src, s, e, x, y) { }
    }
  }

  /** `%bxx`: from one x to the next one. */
  lemma EqualBalanceItem(pat: Str, src: Str, p: nat, s: nat, x: nat, caps: seq<Cap>, r: Answer)
    requires s <= |src| && At(pat, p) == C('%') && At(pat, p + 1) == C('b') && At(pat, p + 2) == At(pat, p + 3) == x != 0
    ensures WellFormed(pat, p, Kinds(caps)) <==> WellFormed(pat, p + 4, Kinds(caps))
    ensures forall e :: s < e < |src| && src[s] == src[e] == x && x !in src[s+1..e] ==>
      (Answers(pat, src, p, s, caps, r) <==> Answers(pat, src, p + 4, e + 1, caps, r))
    ensures s == |src| || src[s] != x || x !in src[s+1..] ==> (Answers(pat, src, p, s, caps, r) <==> r.None?)
  {
    assert ParseAt(pat, p) == It(Balance(x, x), p + 4);
    hide ParseAt, Answers;
    if s == |src| || src[s] != x {
      Blocked(pat, src, p, s, caps, r);
    } else {
      EqualDelimiters(src, s + 1, x);
      var end := BalanceEnd(src, s + 1, x, x, 1);
      hide BalanceEnd;
      if end.Some? {
        Through(pat, src, p, s, caps, p + 4, end.value, caps, r);
        assert src[s+1..][end.value-1-(s+1)] == x;
        forall e | s < e < |src| && src[s] == src[e] == x && x !in src[s+1..e] ensures e + 1 == end.value {
          if end.value < e + 1 { InSlice(src, s + 1, e, end.value - 1); assert false; }
        }
      } else {
        Blocked(pat, src, p, s, caps, r);
      }
    }
  }

  lemma InSlice(src: Str, i: nat, j: nat, k: nat)
    requires i <= k < j <= |src|
    ensures src[k] in src[i..j]
  {
    assert src[i..j][k-i] == src[k];
  }

  /** A class and its suffix are never malformed. */
  lemma ClassWellFormed(pat: Str, p: nat, ep: nat, ks: seq<CapKind>)
    requires ClassAt(pat, p, ep)
    ensures WellFormed(pat, p, ks) <==> WellFormed(pat, if At(pat, ep) in {C('*'), C('+'), C('-'), C('?')} then ep + 1 else ep, ks)
  {
    hide ClassEnd, WellFormed;
    ClassIsSingle(pat, p, ep);
    assert ParseAt(pat, p).next == if At(pat, ep) in {C('*'), C('+'), C('-'), C('?')} then ep + 1 else ep;
    hide ParseAt, ParseSingle, ClassAt;
    WellFormedStep(pat, p, ks);
  }

  lemma WellFormedStep(pat: Str, p: nat, ks: seq<CapKind>)
    requires ParseAt(pat, p).It? && ParseAt(pat, p).item.Single?
    ensures WellFormed(pat, p, ks) <==> WellFormed(pat, ParseAt(pat, p).next, ks)
  {
    hide ParseAt;
  }

  // ---- Classes -----------------------------------------------------------------------------

  /** The letters behind `%`, in the C locale; an upper-case letter is the complement, and any other
      character stands for itself. */
  lemma ClassLetters(c: nat, l: nat)
    ensures MatchClass(c, C('a')) <==> 65 <= c <= 90 || 97 <= c <= 122
    ensures MatchClass(c, C('c')) <==> c <= 31 || c == 127
    ensures MatchClass(c, C('d')) <==> 48 <= c <= 57
    ensures MatchClass(c, C('l')) <==> 97 <= c <= 122
    ensures MatchClass(c, C('p')) <==> 33 <= c <= 47 || 58 <= c <= 64 || 91 <= c <= 96 || 123 <= c <= 126
    ensures MatchClass(c, C('s')) <==> 9 <= c <= 13 || c == 32
    ensures MatchClass(c, C('u')) <==> 65 <= c <= 90
    ensures MatchClass(c, C('w')) <==> 48 <= c <= 57 || 65 <= c <= 90 || 97 <= c <= 122
    ensures MatchClass(c, C('x')) <==> 48 <= c <= 57 || 65 <= c <= 70 || 97 <= c <= 102
    ensures MatchClass(c, C('z')) <==> c == 0
    ensures l in {C('a'), C('c'), C('d'), C('l'), C('p'), C('s'), C('u'), C('w'), C('x'), C('z')} ==> MatchClass(c, l - 32) == !MatchClass(c, l)
    ensures !(65 <= l <= 90) && !(97 <= l <= 122) ==> (MatchClass(c, l) <==> c == l)
  {
  }

  /** `.`, `%x` and plain characters, and where they end. */
  lemma PlainClasses(pat: Str, b: nat, ep: nat, c: nat)
    requires b < ep
    ensures At(pat, b) == C('.') ==> SingleMatch(pat, b, ep, c)
    ensures At(pat, b) == C('%') ==> (SingleMatch(pat, b, ep, c) <==> MatchClass(c, At(pat, b + 1)))
    ensures At(pat, b) !in {C('.'), C('%'), C('[')} ==> (SingleMatch(pat, b, ep, c) <==> c == At(pat, b))
    ensures At(pat, b) !in {0, C('%'), C('[')} ==> ClassEnd(pat, b) == Some(b + 1)
    ensures At(pat, b) == C('%') ==> ClassEnd(pat, b) == if At(pat, b + 1) == 0 then None else Some(b + 2)
  {
    hide MatchClass;
  }

  // ---- Sets --------------------------------------------------------------------------------

  /** In a set a closing bracket that comes first and a minus sign that comes last stand for themselves. */
  lemma SetEdges(pat: Str, b: nat, x: nat, c: nat)
    requires b + 4 <= |pat| && At(pat, b) == C('[')
    ensures x != 0 && x !in {C('%'), C('^'), C(']')} && pat[b+1..b+4] == [x, C('-'), C(']')] ==>
      ClassEnd(pat, b) == Some(b + 4) && (SingleMatch(pat, b, b + 4, c) <==> c in {x, C('-')})
    ensures pat[b+1..b+4] == [C(']'), x, C(']')] && x != 0 && x !in {C('%'), C('-'), C(']')} ==>
      ClassEnd(pat, b) == Some(b + 4) && (SingleMatch(pat, b, b + 4, c) <==> c in {x, C(']')})
    ensures pat[b+1..b+4] == [C('^'), C(']'), C(']')] ==>
      ClassEnd(pat, b) == Some(b + 4) && (SingleMatch(pat, b, b + 4, c) <==> c != C(']'))
  {
    var t := pat[b+1..b+4];
    assert At(pat, b + 1) == t[0] && At(pat, b + 2) == t[1] && At(pat, b + 3) == t[2];
    hide MatchClass;
    var ec := b + 3;
    if t[2] == C(']') {
      assert !InElements(pat, ec, ec, c);
      assert NextElement(pat, b + 2, ec) == ec || At(pat, b + 2) == C('%');
      assert InElements(pat, b + 2, ec, c) <==> ElementHas(pat, b + 2, ec, c) || InElements(pat, NextElement(pat, b + 2, ec), ec, c);
      assert InElements(pat, b + 1, ec, c) <==> ElementHas(pat, b + 1, ec, c) || InElements(pat, NextElement(pat, b + 1, ec), ec, c);
      assert t[1] !in {0, C('%')} ==> SetEnd(pat, b + 2) == Some(b + 4);
    }
  }

  /** What may stand in a set: a character, a range, a class. */
  datatype Element = One(c: nat) | Range(lo: nat, hi: nat) | Class(l: nat)

  predicate Alnum(c: nat) { 48 <= c <= 57 || 65 <= c <= 90 || 97 <= c <= 122 }

  predicate Writable(e: Element) {
    match e
    case One(c) => c != 0
    case Range(lo, hi) => Alnum(lo) && Alnum(hi)
    case Class(l) => Alnum(l)
  }

  /** How an element is written; what is not a letter or a digit is escaped. */
  function Text(e: Element): (r: Str)
    ensures |r| > 0
  {
    match e
    case One(c) => if Alnum(c) then [c] else [C('%'), c]
    case Range(lo, hi) => [lo, C('-'), hi]
    case Class(l) => [C('%'), l]
  }

  function Texts(es: seq<Element>): Str {
    if es == [] then [] else Text(es[0]) + Texts(es[1..])
  }

  predicate Has(e: Element, c: nat) {
    match e
    case One(d) => c == d
    case Range(lo, hi) => lo <= c <= hi
    case Class(l) => MatchClass(c, l)
  }

  predicate HasSome(es: seq<Element>, c: nat) { exists i :: 0 <= i < |es| && Has(es[i], c) }

  /** The elements from q on, and the bracket behind them. */
  lemma {:induction false} ElementsRead(pat: Str, q: nat, es: seq<Element>, ec: nat, c: nat)
    requires q <= ec < |pat| && pat[q..ec] == Texts(es) && pat[ec] == C(']') && forall i :: 0 <= i < |es| ==> Writable(es[i])
    ensures InElements(pat, q, ec, c) <==> HasSome(es, c)
    ensures es != [] ==> SetEnd(pat, q) == Some(ec + 1)
    decreases |es|
  {
    hide MatchClass, Has;
    if es != [] {
      hide HasSome, InElements, SetEnd;
      var w := Text(es[0]);
      var q1 := q + |w|;
      assert pat[q..ec] == w + Texts(es[1..]);
      assert pat[q1..ec] == Texts(es[1..]) by { assert pat[q1..ec] == pat[q..ec][|w|..]; }
      assert forall i :: 0 <= i < |w| ==> At(pat, q + i) == w[i] by {
        forall i | 0 <= i < |w| ensures At(pat, q + i) == w[i] { assert pat[q + i] == pat[q..ec][i]; }
      }
      assert q1 < ec ==> es[1..] != [] && Texts(es[1..])[0] == Text(es[1])[0] && pat[q1] == pat[q1..ec][0];
      assert es[1..] != [] ==> |Texts(es[1..])| > 0;
      ElementsRead(pat, q1, es[1..], ec, c);
      ElementRead(pat, q, es, ec, c);
      ElementEnds(pat, q, es, ec);
      HasSomeStep(es, c);
    }
  }

  lemma HasSomeStep(es: seq<Element>, c: nat)
    requires es != []
    ensures HasSome(es, c) <==> Has(es[0], c) || HasSome(es[1..], c)
  {
    hide Has;
    if HasSome(es[1..], c) {
      var i :| 0 <= i < |es[1..]| && Has(es[1..][i], c);
      assert Has(es[i+1], c);
    }
    if HasSome(es, c) {
      var i :| 0 <= i < |es| && Has(es[i], c);
      if i > 0 { assert Has(es[1..][i-1], c); }
    }
  }

  ghost predicate ElementAt(pat: Str, q: nat, es: seq<Element>, ec: nat) {
    && es != [] && Writable(es[0]) && q + |Text(es[0])| <= ec < |pat| && pat[ec] == C(']')
    && (forall i :: 0 <= i < |Text(es[0])| ==> At(pat, q + i) == Text(es[0])[i])
    && (q + |Text(es[0])| < ec ==> Alnum(At(pat, q + |Text(es[0])|)) || At(pat, q + |Text(es[0])|) == C('%'))
  }

  lemma ElementRead(pat: Str, q: nat, es: seq<Element>, ec: nat, c: nat)
    requires ElementAt(pat, q, es, ec)
    ensures InElements(pat, q, ec, c) <==> Has(es[0], c) || InElements(pat, q + |Text(es[0])|, ec, c)
  {
    hide MatchClass;
    var w := Text(es[0]);
    assert At(pat, q) == w[0] && (|w| > 1 ==> At(pat, q + 1) == w[1]) && (|w| > 2 ==> At(pat, q + 2) == w[2]);
    if es[0].One? { ClassLetters(c, es[0].c); }
    assert NextElement(pat, q, ec) == q + |w|;
    assert ElementHas(pat, q, ec, c) == Has(es[0], c);
  }

  lemma ElementEnds(pat: Str, q: nat, es: seq<Element>, ec: nat)
    requires ElementAt(pat, q, es, ec)
    ensures var q1 := q + |Text(es[0])|; SetEnd(pat, q) == if q1 == ec then Some(ec + 1) else SetEnd(pat, q1)
  {
    var w := Text(es[0]);
    assert At(pat, q) == w[0] && (|w| > 1 ==> At(pat, q + 1) == w[1]) && (|w| > 2 ==> At(pat, q + 2) == w[2]);
    if es[0].Range? {
      assert SetEnd(pat, q) == SetEnd(pat, q + 1) == SetEnd(pat, q + 2);
    }
  }

  /** Where the parts of a written set are. */
  lemma SetLayout(pat: Str, b: nat, open: Str, inner: Str)
    requires open != [] && b + |open| + |inner| + 1 <= |pat| && pat[b..b + |open| + |inner| + 1] == open + inner + [C(']')]
    ensures pat[b + |open|..b + |open| + |inner|] == inner && pat[b + |open| + |inner|] == C(']')
    ensures pat[b] == open[0] && (|open| > 1 ==> pat[b + 1] == open[1]) && (inner != [] ==> pat[b + |open|] == inner[0])
  {
    var all := open + inner + [C(']')];
    var text := pat[b..b + |all|];
    assert pat[b + |open|..b + |open| + |inner|] == text[|open|..|open| + |inner|];
    assert pat[b] == text[0] && pat[b + |open|] == text[|open|] && pat[b + |open| + |inner|] == text[|all|-1];
    assert |open| > 1 ==> pat[b + 1] == text[1];
  }

  /** A written set, `[...]` or `[^...]`, goes up to its bracket and matches the characters that some
      element has, or those that none has. */
  lemma SetRead(pat: Str, b: nat, negated: bool, es: seq<Element>, c: nat)
    requires es != [] && forall i :: 0 <= i < |es| ==> Writable(es[i])
    requires var text := (if negated then [C('['), C('^')] else [C('[')]) + Texts(es) + [C(']')];
      b + |text| <= |pat| && pat[b..b + |text|] == text
    ensures var ep := b + (if negated then 3 else 2) + |Texts(es)|;
      At(pat, b) == C('[') && ClassEnd(pat, b) == Some(ep) && (SingleMatch(pat, b, ep, c) <==> (if negated then !HasSome(es, c) else HasSome(es, c)))
  {
    hide InElements, SetEnd, HasSome, MatchClass;
    var open := if negated then [C('['), C('^')] else [C('[')];
    var q := b + |open|;
    SetLayout(pat, b, open, Texts(es));
    assert Texts(es)[0] == Text(es[0])[0] != C('^');
    ElementsRead(pat, q, es, q + |Texts(es)|, c);
  }
}
