/** table.sort of ltablib.c. The value of index k of the table is a[k]; a[0] is not used. */
module Sort {

  /** An order function that Lua accepts: asymmetric, and "not less" is transitive. */
  ghost predicate StrictWeak<T(!new)>(lt: (T, T) -> bool) {
    && (forall x, y :: lt(x, y) ==> !lt(y, x))
    && (forall x, y, z :: !lt(y, x) && !lt(z, y) ==> !lt(z, x))
  }

  predicate Ordered<T>(lt: (T, T) -> bool, s: seq<T>, l: int, u: int)
    requires 0 <= l && u < |s|
  {
    forall p, q :: l <= p < q <= u ==> !lt(s[q], s[p])
  }

  /** Every pair of positions between l0 and u0 of which one lies outside of l..u is in order. */
  predicate Settled<T>(lt: (T, T) -> bool, s: seq<T>, l0: int, u0: int, l: int, u: int)
    requires 0 <= l0 && u0 < |s|
  {
    forall p, q :: l0 <= p < q <= u0 && (p < l || u < q) ==> !lt(s[q], s[p])
  }

  /** t is s with the values between l and u in another order. */
  predicate Rearranged<T(==)>(s: seq<T>, t: seq<T>, l: int, u: int) {
    && |t| == |s| && multiset(t) == multiset(s)
    && forall k :: 0 <= k < |s| && !(l <= k <= u) ==> t[k] == s[k]
  }

  function Swapped<T>(s: seq<T>, i: nat, j: nat): seq<T>
    requires i < |s| && j < |s|
  {
    s[i := s[j]][j := s[i]]
  }

  lemma SwapRearranges<T>(s: seq<T>, i: nat, j: nat, l: int, u: int)
    requires l <= i <= u && l <= j <= u && i < |s| && j < |s|
    ensures Rearranged(s, Swapped(s, i, j), l, u)
  {
  }

  lemma RearrangedTrans<T>(r: seq<T>, s: seq<T>, t: seq<T>, l: int, u: int, l': int, u': int)
    requires Rearranged(r, s, l, u) && Rearranged(s, t, l', u') && l <= l' && u' <= u
    ensures Rearranged(r, t, l, u)
  {
  }

  /** Every value of the rearranged part was there before. */
  lemma FromBefore<T>(s: seq<T>, t: seq<T>, l: nat, u: int, x: int)
    requires Rearranged(s, t, l, u) && l <= x <= u < |s|
    ensures exists y :: l <= y <= u && s[y] == t[x]
  {
    var a, b, b', c := s[..l], s[l..u+1], t[l..u+1], s[u+1..];
    assert s == a + b + c;
    assert t == a + b' + c;
    var e := t[x];
    PartsAt(a, b, c, e);
    PartsAt(a, b', c, e);
    hide Rearranged;
    assert b'[x-l] == e;
    assert multiset(b')[e] > 0;
    assert e in b;
    var y :| 0 <= y < |b| && b[y] == e;
    assert s[l+y] == e;
  }

  lemma PartsAt<T>(a: seq<T>, b: seq<T>, c: seq<T>, e: T)
    ensures multiset(a + b + c)[e] == multiset(a)[e] + multiset(b)[e] + multiset(c)[e]
  {
    assert multiset(a + b + c) == multiset(a) + multiset(b) + multiset(c);
  }

  lemma RearrangedSelf<T>(s: seq<T>, l: int, u: int)
    ensures Rearranged(s, s, l, u)
  {
  }

  lemma Asymmetric<T(!new)>(lt: (T, T) -> bool, x: T, y: T)
    requires StrictWeak(lt)
    ensures lt(x, y) ==> !lt(y, x)
  {
  }

  lemma NotLess<T(!new)>(lt: (T, T) -> bool, x: T, y: T, z: T)
    requires StrictWeak(lt) && !lt(y, x) && !lt(z, y)
    ensures !lt(z, x)
  {
  }

  // ---- Quicksort ---------------------------------------------------------------------------

  /** set2, after the two values have been pushed. */
  method Set2<T(==)>(a: array<T>, i: nat, j: nat)
    requires 1 <= i < a.Length && 1 <= j < a.Length
    modifies a
    ensures a[..] == Swapped(old(a[..]), i, j) && a[i] == old(a[j]) && a[j] == old(a[i])
    ensures forall k :: 0 <= k < a.Length && k != i && k != j ==> a[k] == old(a[k])
  {
    a[i], a[j] := a[j], a[i];
  }

  /** The three values at l, the middle and u are put in order. */
  method MedianOfThree<T(!new,==)>(a: array<T>, lt: (T, T) -> bool, l: nat, u: nat) returns (i: nat)
    requires StrictWeak(lt) && 1 <= l < u < a.Length
    modifies a
    ensures Rearranged(old(a[..]), a[..], l, u) && i == (l + u) / 2
    ensures !lt(a[u], a[l])
    ensures u - l > 1 ==> !lt(a[i], a[l]) && !lt(a[u], a[i])
  {
    hide Rearranged, StrictWeak, Swapped;
    i := (l + u) / 2;
    ghost var s := a[..];
    RearrangedSelf(s, l, u);
    Asymmetric(lt, a[u], a[l]);
    if lt(a[u], a[l]) {
      SwapRearranges(s, l, u, l, u);
      SwappedAt(s, l, u);
      Set2(a, l, u);
    }
    ghost var t := a[..];
    assert !lt(t[u], t[l]);
    if u - l == 1 { return; }
    Asymmetric(lt, t[i], t[l]);
    if lt(a[i], a[l]) {
      NotLess(lt, t[i], t[l], t[u]);
      SwapRearranges(t, i, l, l, u);
      SwappedAt(t, i, l);
      Set2(a, i, l);
      RearrangedTrans(s, t, a[..], l, u, l, u);
      assert a[..][i] == t[l] && a[..][l] == t[i] && a[..][u] == t[u];
    } else {
      Asymmetric(lt, t[u], t[i]);
      if lt(a[u], a[i]) {
        SwapRearranges(t, i, u, l, u);
        SwappedAt(t, i, u);
        Set2(a, i, u);
        RearrangedTrans(s, t, a[..], l, u, l, u);
        assert a[..][i] == t[u] && a[..][l] == t[l] && a[..][u] == t[i];
      }
    }
  }

  /** The loop that brings values that are not greater than the pivot at u - 1 to the front. The
      scans stay within l..u, so that the order function is never found invalid. */
  method Partition<T(!new,==)>(a: array<T>, lt: (T, T) -> bool, l: nat, u: nat) returns (i: nat)
    requires StrictWeak(lt) && 1 <= l && l + 3 <= u < a.Length
    requires !lt(a[u-1], a[l]) && !lt(a[u], a[u-1])
    modifies a
    ensures Rearranged(old(a[..]), a[..], l, u) && l < i < u
    ensures forall k :: l <= k < i ==> !lt(a[i], a[k])
    ensures forall k :: i < k <= u ==> !lt(a[k], a[i])
  {
    hide Rearranged, StrictWeak, Swapped;
    var P := a[u-1];
    Asymmetric(lt, P, P);
    RearrangedSelf(a[..], l, u);
    i := l;
    var j := u - 1;
    while true
      invariant l <= i < u - 1 && l < j <= u - 1 && a[u-1] == P
      invariant Rearranged(old(a[..]), a[..], l, u)
      invariant forall k :: l <= k <= i ==> !lt(P, a[k])
      invariant forall k :: j <= k <= u ==> !lt(a[k], P)
      decreases u - i
    {
      i, j := Scan(a, lt, P, l, u, i, j);
      if j < i { break; }
      ghost var s := a[..];
      SwapRearranges(s, i, j, l, u);
      Set2(a, i, j);
      RearrangedTrans(old(a[..]), s, a[..], l, u, l, u);
    }
    ghost var s := a[..];
    SwapRearranges(s, u - 1, i, l, u);
    Set2(a, u - 1, i);
    RearrangedTrans(old(a[..]), s, a[..], l, u, l, u);
  }

  lemma SwappedAt<T>(s: seq<T>, i: nat, j: nat)
    requires i < |s| && j < |s|
    ensures |Swapped(s, i, j)| == |s| && Swapped(s, i, j)[i] == s[j] && Swapped(s, i, j)[j] == s[i]
    ensures forall k :: 0 <= k < |s| && k != i && k != j ==> Swapped(s, i, j)[k] == s[k]
  {
  }

  /** The two inner loops: i goes up to a value that is not less than the pivot P, j goes down to
      one that P is not less than. */
  method Scan<T(!new,==)>(a: array<T>, lt: (T, T) -> bool, P: T, l: nat, u: nat, i0: nat, j0: nat) returns (i: nat, j: nat)
    requires StrictWeak(lt) && 1 <= l && l + 3 <= u < a.Length && l <= i0 < u - 1 && l < j0 <= u - 1 && a[u-1] == P
    requires forall k :: l <= k <= i0 ==> !lt(P, a[k])
    requires forall k :: j0 <= k <= u ==> !lt(a[k], P)
    ensures i0 < i <= u - 1 && l <= j < j0 && !lt(a[i], P) && !lt(P, a[j])
    ensures forall k :: l <= k < i ==> !lt(P, a[k])
    ensures forall k :: j < k <= u ==> !lt(a[k], P)
  {
    hide StrictWeak;
    Asymmetric(lt, P, P);
    i, j := i0 + 1, j0 - 1;
    while lt(a[i], P)
      invariant i0 < i <= u - 1 && forall k :: l <= k < i ==> !lt(P, a[k])
      decreases u - i
    {
      assert i <= u;
      Asymmetric(lt, a[i], P);
      i := i + 1;
    }
    while lt(P, a[j])
      invariant l <= j < j0 && forall k :: j < k <= u ==> !lt(a[k], P)
      decreases j
    {
      assert j >= l;
      Asymmetric(lt, P, a[j]);
      j := j - 1;
    }
  }

  function Pow2(n: nat): nat { if n == 0 then 1 else 2 * Pow2(n - 1) }

  function Max(a: int, b: int): int { if a < b then b else a }

  /** The body of auxsort before its recursive call: two or three values are in order afterwards,
      and of more, those before i are not greater and those behind i not less than a[i]. */
  method Divide<T(!new,==)>(a: array<T>, lt: (T, T) -> bool, l: nat, u: nat) returns (i: nat)
    requires StrictWeak(lt) && 1 <= l < u < a.Length
    modifies a
    ensures Rearranged(old(a[..]), a[..], l, u)
    ensures u - l <= 2 ==> !lt(a[u], a[l]) && (u - l == 2 ==> !lt(a[l+1], a[l]) && !lt(a[u], a[l+1]))
    ensures u - l > 2 ==> l < i < u && (forall k :: l <= k < i ==> !lt(a[i], a[k])) && (forall k :: i < k <= u ==> !lt(a[k], a[i]))
  {
    hide Rearranged, StrictWeak, Swapped;
    i := MedianOfThree(a, lt, l, u);
    if u - l <= 2 { return; }
    ghost var t := a[..];
    SwapRearranges(t, i, u - 1, l, u);
    SwappedAt(t, i, u - 1);
    Set2(a, i, u - 1);
    ghost var v := a[..];
    RearrangedTrans(old(a[..]), t, v, l, u, l, u);
    assert v[l] == t[l] && v[u] == t[u] && v[u-1] == t[i];
    i := Partition(a, lt, l, u);
    RearrangedTrans(old(a[..]), v, a[..], l, u, l, u);
  }

  /** auxsort. `depth` is how deep the calls are nested below this one. */
  method AuxSort<T(!new,==)>(a: array<T>, lt: (T, T) -> bool, l0: nat, u0: nat) returns (ghost depth: nat)
    requires StrictWeak(lt) && 1 <= l0 <= u0 + 1 <= a.Length
    modifies a
    ensures Ordered(lt, a[..], l0, u0) && Rearranged(old(a[..]), a[..], l0, u0)
    ensures Pow2(depth) <= Max(1, u0 - l0 + 1)
    decreases u0 + 1 - l0
  {
    hide Rearranged, Settled, Pow2, StrictWeak, Ordered, Swapped;
    var l, u := l0, u0;
    depth := 0;
    Start(lt, a[..], l0, u0);
    while l < u
      invariant l0 <= l <= u + 1 <= u0 + 1 && Rearranged(old(a[..]), a[..], l0, u0)
      invariant Settled(lt, a[..], l0, u0, l, u) && Pow2(depth) <= Max(1, u0 - l0 + 1)
      decreases u + 1 - l
    {
      ghost var s := a[..];
      var i := Divide(a, lt, l, u);
      ghost var w := a[..];
      RearrangedTrans(old(a[..]), s, w, l0, u0, l, u);
      StaysSettled(lt, s, w, l0, u0, l, u, l, u);
      if u - l <= 2 {
        FewSorted(lt, w, l0, u0, l, u);
        break;
      }
      var j, k;
      ghost var left := i - l < u - i;
      ghost var l1, u1 := l, u;
      if i - l < u - i {
        j, k := l, i - 1;
        l := i + 1;
      } else {
        j, k := i + 1, u;
        u := i - 1;
      }
      ghost var d := AuxSort(a, lt, j, k);
      RearrangedTrans(old(a[..]), w, a[..], l0, u0, j, k);
      if left {
        LeftSorted(lt, w, a[..], l0, u0, l1, u1, i);
      } else {
        RightSorted(lt, w, a[..], l0, u0, l1, u1, i);
      }
      Deeper(d, k - j + 1, u0 - l0 + 1);
      if depth < d + 1 { depth := d + 1; }
    }
    AllSorted(lt, a[..], l0, u0, l, u);
  }

  lemma Start<T>(lt: (T, T) -> bool, s: seq<T>, l: nat, u: nat)
    requires l <= u + 1 <= |s|
    ensures Rearranged(s, s, l, u) && Settled(lt, s, l, u, l, u) && Pow2(0) == 1
  {
  }

  lemma Deeper(d: nat, small: int, n: int)
    requires Pow2(d) <= Max(1, small) && 2 * small < n && n >= 4
    ensures Pow2(d + 1) <= Max(1, n)
  {
  }

  /** Rearranging values between l and u keeps what is settled outside. */
  lemma StaysSettled<T>(lt: (T, T) -> bool, s: seq<T>, t: seq<T>, l0: nat, u0: nat, l: nat, u: nat, l1: nat, u1: nat)
    requires l0 <= l <= l1 && u1 <= u <= u0 < |s| && Rearranged(s, t, l1, u1) && Settled(lt, s, l0, u0, l, u)
    ensures |t| == |s| && Settled(lt, t, l0, u0, l, u)
  {
    forall p, q | l0 <= p < q <= u0 && (p < l || u < q) ensures !lt(t[q], t[p]) {
      var p', q' := p, q;
      if l1 <= p <= u1 {
        FromBefore(s, t, l1, u1, p);
        p' :| l1 <= p' <= u1 && s[p'] == t[p];
      }
      if l1 <= q <= u1 {
        FromBefore(s, t, l1, u1, q);
        q' :| l1 <= q' <= u1 && s[q'] == t[q];
      }
      assert !lt(s[q'], s[p']);
    }
  }

  /** The smaller part on the left has been sorted. */
  lemma LeftSorted<T(!new)>(lt: (T, T) -> bool, s: seq<T>, t: seq<T>, l0: nat, u0: nat, l: nat, u: nat, i: nat)
    requires StrictWeak(lt) && l0 <= l < i < u <= u0 < |s| && Settled(lt, s, l0, u0, l, u)
    requires (forall k :: l <= k < i ==> !lt(s[i], s[k])) && (forall k :: i < k <= u ==> !lt(s[k], s[i]))
    requires Rearranged(s, t, l, i - 1) && |t| == |s| && Ordered(lt, t, l, i - 1)
    ensures Settled(lt, t, l0, u0, i + 1, u)
  {
    StaysSettled(lt, s, t, l0, u0, l, u, l, i - 1);
    forall p, q | l <= p < q <= u && p < i + 1 ensures !lt(t[q], t[p]) {
      if p < i && q >= i {
        FromBefore(s, t, l, i - 1, p);
        var p' :| l <= p' <= i - 1 && s[p'] == t[p];
        assert !lt(s[i], s[p']) && t[q] == s[q];
      }
    }
  }

  lemma RightSorted<T(!new)>(lt: (T, T) -> bool, s: seq<T>, t: seq<T>, l0: nat, u0: nat, l: nat, u: nat, i: nat)
    requires StrictWeak(lt) && l0 <= l < i < u <= u0 < |s| && Settled(lt, s, l0, u0, l, u)
    requires (forall k :: l <= k < i ==> !lt(s[i], s[k])) && (forall k :: i < k <= u ==> !lt(s[k], s[i]))
    requires Rearranged(s, t, i + 1, u) && |t| == |s| && Ordered(lt, t, i + 1, u)
    ensures Settled(lt, t, l0, u0, l, i - 1)
  {
    StaysSettled(lt, s, t, l0, u0, l, u, i + 1, u);
    forall p, q | l <= p < q <= u && i - 1 < q ensures !lt(t[q], t[p]) {
      if q > i && p <= i {
        FromBefore(s, t, i + 1, u, q);
        var q' :| i + 1 <= q' <= u && s[q'] == t[q];
        assert !lt(s[q'], s[i]) && t[p] == s[p];
      }
    }
  }

  /** Two or three values have been put in order. */
  lemma FewSorted<T(!new)>(lt: (T, T) -> bool, s: seq<T>, l0: nat, u0: nat, l: nat, u: nat)
    requires l0 <= l < u <= l + 2 && u <= u0 < |s| && Settled(lt, s, l0, u0, l, u) && !lt(s[u], s[l])
    requires u - l == 2 ==> !lt(s[l+1], s[l]) && !lt(s[u], s[l+1])
    ensures Ordered(lt, s, l0, u0)
  {
  }

  lemma AllSorted<T>(lt: (T, T) -> bool, s: seq<T>, l0: nat, u0: nat, l: nat, u: nat)
    requires l0 <= u0 + 1 <= |s|
    ensures l >= u && Settled(lt, s, l0, u0, l, u) ==> Ordered(lt, s, l0, u0)
  {
  }

  /** table.sort on the values 1 to n. */
  method SortTable<T(!new,==)>(a: array<T>, lt: (T, T) -> bool) returns (ghost depth: nat)
    requires StrictWeak(lt) && a.Length > 0
    modifies a
    ensures forall p, q :: 1 <= p < q < a.Length ==> !lt(a[q], a[p])
    ensures Ordered(lt, a[..], 1, a.Length - 1) && multiset(a[..]) == multiset(old(a[..])) && a[0] == old(a[0])
    ensures Pow2(depth) <= Max(1, a.Length - 1)
  {
    depth := AuxSort(a, lt, 1, a.Length - 1);
    assert old(a[..])[0] == a[..][0];
  }
}
