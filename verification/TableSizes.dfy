/** Counting integer keys and choosing the size of the array part. */
module TableSizes {

  const MAXBITS: nat := 26

  function Pow2(n: nat): (r: nat)
    ensures r > 0
  {
    if n == 0 then 1 else 2 * Pow2(n - 1)
  }

  lemma {:induction false} Pow2Grows(a: nat, b: nat)
    requires a <= b
    ensures Pow2(a) <= Pow2(b) && (a < b ==> 2 * Pow2(a) <= Pow2(b))
    decreases b
  {
    if a < b { Pow2Grows(a, b - 1); }
  }

  /** The keys of S in (lo, hi]. */
  function Within(S: set<int>, lo: int, hi: int): set<int> { set x | x in S && lo < x <= hi }

  function Slice(S: set<int>, lo: int, hi: int): nat { |Within(S, lo, hi)| }

  lemma SliceAdd(S: set<int>, x: int, lo: int, hi: int)
    requires x !in S
    ensures Slice(S + {x}, lo, hi) == Slice(S, lo, hi) + (if lo < x <= hi then 1 else 0)
  {
    assert Within(S + {x}, lo, hi) == if lo < x <= hi then Within(S, lo, hi) + {x} else Within(S, lo, hi);
  }

  lemma SliceSplit(S: set<int>, lo: int, mid: int, hi: int)
    requires lo <= mid <= hi
    ensures Slice(S, lo, hi) == Slice(S, lo, mid) + Slice(S, mid, hi)
  {
    assert Within(S, lo, hi) == Within(S, lo, mid) + Within(S, mid, hi);
  }

  lemma {:induction false} SliceBound(S: set<int>, lo: int, hi: int)
    requires lo <= hi
    ensures Slice(S, lo, hi) <= hi - lo
    decreases hi - lo
  {
    if lo == hi {
      assert Within(S, lo, hi) == {};
    } else {
      SliceBound(S, lo, hi - 1);
      SliceSplit(S, lo, hi - 1, hi);
      assert Within(S, hi - 1, hi) <= {hi};
      SubsetSize(Within(S, hi - 1, hi), {hi});
    }
  }

  lemma SubsetSize(a: set<int>, b: set<int>)
    requires a <= b
    ensures |a| <= |b|
  {
    assert b == a + (b - a);
  }

  /** The keys that nums[lg] counts begin above this. */
  function Low(lg: nat): nat { if lg == 0 then 0 else Pow2(lg - 1) }

  /** nums[lg] is the number of keys in (2^(lg-1), 2^lg]. */
  ghost predicate Counts(nums: seq<nat>, S: set<int>) {
    |nums| == MAXBITS + 1 && forall lg :: 0 <= lg <= MAXBITS ==> nums[lg] == Slice(S, Low(lg), Pow2(lg))
  }

  /** Half of the slots from 1 to n or more are not in use. */
  predicate Sparse(S: set<int>, n: nat) { Slice(S, 0, n) <= n / 2 }

  predicate IsSize(n: nat) { exists lg :: 0 <= lg <= MAXBITS && n == Pow2(lg) }

  /** No power of two above n, up to the one before 2^i, is used better. */
  ghost predicate NoBetter(S: set<int>, n: nat, i: nat) {
    forall lg :: 0 <= lg < i && lg <= MAXBITS && Pow2(lg) > n ==> Sparse(S, Pow2(lg))
  }

  /** The keys from 1 to n. */
  function UpTo(S: set<int>, n: nat): set<int> { set x | x in S && 1 <= x <= n }

  /** The size of the array part: zero or a power of two up to 2^26 of which more than half is in
      use, and no larger one is used so well. */
  lemma SizeMeaning(S: set<int>, n: nat, larger: nat)
    requires (n == 0 || (IsSize(n) && !Sparse(S, n))) && NoBetter(S, n, MAXBITS + 1)
    ensures n == 0 || (n in Powers() && 2 * |UpTo(S, n)| > n)
    ensures larger in Powers() && larger > n ==> 2 * |UpTo(S, larger)| <= larger
  {
    hide UpTo, Sparse;
    PowersAre();
    SparseMeaning(S, n);
    SparseMeaning(S, larger);
    if n > 0 {
      var lg :| 0 <= lg <= MAXBITS && n == Pow2(lg);
      assert n == Powers()[lg];
    }
    if larger in Powers() && larger > n {
      var lg :| 0 <= lg <= MAXBITS && larger == Powers()[lg];
      assert Pow2(lg) > n;
    }
  }

  function Powers(): seq<nat> {
    [1, 2, 4, 8, 16, 32, 64, 128, 256, 512, 1024, 2048,
     4096, 8192, 16384, 32768, 65536, 131072, 262144, 524288,
     1048576, 2097152, 4194304, 8388608, 16777216, 33554432, 67108864]
  }

  lemma PowersDouble()
    ensures |Powers()| == 27 && Powers()[0] == 1 && forall i :: 0 <= i < 26 ==> Powers()[i+1] == 2 * Powers()[i]
  {
  }

  lemma PowersAre()
    ensures |Powers()| == MAXBITS + 1 && forall lg :: 0 <= lg <= MAXBITS ==> Pow2(lg) == Powers()[lg]
  {
    hide Powers;
    PowersDouble();
    var i := 0;
    while i < MAXBITS
      invariant 0 <= i <= MAXBITS && forall lg :: 0 <= lg <= i ==> Pow2(lg) == Powers()[lg]
    {
      PowerStep(i);
      i := i + 1;
    }
  }

  lemma PowerStep(i: nat)
    ensures Pow2(0) == 1 && Pow2(i + 1) == 2 * Pow2(i)
  {
  }

  lemma SparseMeaning(S: set<int>, n: nat)
    ensures Sparse(S, n) <==> 2 * |UpTo(S, n)| <= n
  {
    assert Within(S, 0, n) == UpTo(S, n);
  }

  /** computesizes: the largest power of two such that more than half of the slots up to it are in
      use, or 0; and how many are. */
  method ComputeSizes(nums: seq<nat>, narray: nat, ghost S: set<int>) returns (n: nat, na: nat)
    requires Counts(nums, S) && narray == Slice(S, 0, Pow2(MAXBITS))
    ensures na == Slice(S, 0, n)
    ensures n == 0 || (IsSize(n) && !Sparse(S, n))
    ensures NoBetter(S, n, MAXBITS + 1)
  {
    hide Slice, Within, NoBetter, Low, IsSize, Counts, Pow2;
    var i, twotoi, a := 0, 1, 0;
    n, na := 0, 0;
    SliceBound(S, 0, 0);
    Start(S);
    while twotoi / 2 < narray
      invariant 0 <= i <= MAXBITS + 1 && twotoi == Pow2(i) && a == Slice(S, 0, Low(i))
      invariant na == Slice(S, 0, n) && n <= Low(i)
      invariant n == 0 || (IsSize(n) && !Sparse(S, n))
      invariant NoBetter(S, n, i)
      decreases MAXBITS + 1 - i
    {
      NotPast(S, i);
      SliceAt(nums, S, i);
      if nums[i] > 0 {
        a := a + nums[i];
        if a > twotoi / 2 {
          n, na := twotoi, a;
        }
      }
      Better(S, n, i);
      if a == narray {
        RestSparse(S, i, n);
        return;
      }
      i, twotoi := i + 1, twotoi * 2;
    }
    LargerSparse(S, i, n);
  }

  lemma Start(S: set<int>)
    ensures Pow2(0) == 1 && Low(0) == 0 && NoBetter(S, 0, 0)
  {
  }

  lemma NotPast(S: set<int>, i: nat)
    requires i <= MAXBITS + 1 && Pow2(i) / 2 < Slice(S, 0, Pow2(MAXBITS))
    ensures i <= MAXBITS
  {
    SliceBound(S, 0, Pow2(MAXBITS));
    assert Pow2(MAXBITS + 1) == 2 * Pow2(MAXBITS);
  }

  lemma SliceAt(nums: seq<nat>, S: set<int>, i: nat)
    requires Counts(nums, S) && i <= MAXBITS
    ensures |nums| == MAXBITS + 1 && Slice(S, 0, Pow2(i)) == Slice(S, 0, Low(i)) + nums[i]
    ensures Low(i) < Pow2(i) && Low(i + 1) == Pow2(i) && Pow2(i + 1) == 2 * Pow2(i) && IsSize(Pow2(i))
    ensures Slice(S, 0, Low(i)) <= Low(i) && (i > 0 ==> Low(i) == Pow2(i) / 2) && (i == 0 ==> Low(i) == 0)
  {
    hide Slice;
    SliceSplit(S, 0, Low(i), Pow2(i));
    SliceBound(S, 0, Low(i));
  }

  lemma Better(S: set<int>, n: nat, i: nat)
    requires i <= MAXBITS
    ensures (exists n0: nat :: n0 <= n && NoBetter(S, n0, i)) && (n == Pow2(i) || Slice(S, 0, Pow2(i)) <= Pow2(i) / 2) ==> NoBetter(S, n, i + 1)
  {
    hide Slice;
  }

  lemma LargerSparse(S: set<int>, i: nat, n: nat)
    requires Pow2(i) / 2 >= Slice(S, 0, Pow2(MAXBITS)) && NoBetter(S, n, i)
    ensures NoBetter(S, n, MAXBITS + 1)
  {
    hide Slice;
    forall lg | 0 <= lg <= MAXBITS && Pow2(lg) > n ensures Sparse(S, Pow2(lg)) {
      if lg >= i {
        Pow2Grows(i, lg);
        Pow2Grows(lg, MAXBITS);
        SliceSplit(S, 0, Pow2(lg), Pow2(MAXBITS));
      }
    }
  }

  /** When all keys have been counted, no larger size can be used better. */
  lemma RestSparse(S: set<int>, i: nat, n: nat)
    requires i <= MAXBITS && Slice(S, 0, Pow2(i)) == Slice(S, 0, Pow2(MAXBITS)) && NoBetter(S, n, i + 1)
    ensures NoBetter(S, n, MAXBITS + 1)
  {
    hide Slice;
    forall lg | 0 <= lg <= MAXBITS && Pow2(lg) > n ensures Sparse(S, Pow2(lg)) {
      if lg > i {
        Pow2Grows(i, lg);
        Pow2Grows(lg, MAXBITS);
        SliceSplit(S, 0, Pow2(lg), Pow2(MAXBITS));
        SliceBound(S, 0, Pow2(i));
        SliceSplit(S, 0, Pow2(i), Pow2(lg));
      }
    }
  }

  // ---- Logarithms --------------------------------------------------------------------------

  /** The table log_2 of luaO_log2: the number of bits of a byte. */
  function Log2Byte(x: nat): nat
    requires x < 256
  {
    if x < 1 then 0 else if x < 2 then 1 else if x < 4 then 2 else if x < 8 then 3 else if x < 16 then 4
    else if x < 32 then 5 else if x < 64 then 6 else if x < 128 then 7 else 8
  }

  /** luaO_log2: the position of the highest bit, -1 for 0. */
  method Log2(x: nat) returns (l: int)
    ensures if x == 0 then l == -1 else l >= 0 && Pow2(l) <= x < Pow2(l + 1)
  {
    hide Pow2, Between;
    l := -1;
    var y := x;
    StartBetween(x);
    ghost var p := 1;
    while y >= 256
      invariant l >= -1 && p == Pow2(l + 1)
      invariant Between(x, y, p)
      invariant y == 0 ==> x == 0 && l == -1
    {
      Bytes(x, y, p, l + 1);
      l, y, p := l + 8, y / 256, p * 256;
    }
    var b := Log2Byte(y);
    HighestBit(x, y, p, l, b);
    l := l + b;
  }

  lemma HighestBit(x: nat, y: nat, p: nat, l: int, b: nat)
    requires y < 256 && b == Log2Byte(y) && l >= -1 && p == Pow2(l + 1) && Between(x, y, p)
    ensures y > 0 ==> l + b >= 0 && Pow2(l + b) <= x < Pow2(l + b + 1)
  {
    if y > 0 {
      BytePow(y);
      Pow2Sum(l + 1, b - 1);
      Pow2Sum(l + 1, b);
      hide Pow2, Log2Byte;
      MulLe(Pow2(b - 1), y, p);
      MulLe(y + 1, Pow2(b), p);
    }
  }

  lemma {:induction false} Pow2Sum(a: nat, b: nat)
    ensures Pow2(a + b) == Pow2(b) * Pow2(a)
    ensures Pow2(8) == 256
  {
    if b > 0 {
      Pow2Sum(a, b - 1);
      Double(Pow2(b - 1), Pow2(a));
    }
    assert Pow2(4) == 16;
  }

  lemma Double(a: int, b: int)
    ensures (2 * a) * b == 2 * (a * b)
  {
  }

  lemma MulLe(a: int, b: int, p: nat)
    requires a <= b
    ensures a * p <= b * p
  {
  }

  lemma Factor(q: int, p: int)
    ensures q * (p * 256) == (256 * q) * p
  {
  }

  /** y is x without its lowest bits. */
  predicate Between(x: nat, y: nat, p: nat) { y * p <= x < (y + 1) * p }

  lemma StartBetween(x: nat)
    ensures Between(x, x, 1) && Pow2(0) == 1
  {
  }

  lemma Bytes(x: nat, y: nat, p: nat, e: nat)
    requires Between(x, y, p) && p == Pow2(e)
    ensures Between(x, y / 256, p * 256) && p * 256 == Pow2(e + 8)
  {
    Pow2Sum(e, 8);
    var q := y / 256;
    Factor(q, p);
    Factor(q + 1, p);
    MulLe(256 * q, y, p);
    MulLe(y + 1, 256 * (q + 1), p);
  }

  lemma BytePow(y: nat)
    requires 0 < y < 256
    ensures Log2Byte(y) > 0 && Pow2(Log2Byte(y) - 1) <= y < Pow2(Log2Byte(y))
  {
    assert Pow2(1) == 2 && Pow2(2) == 4;
    assert Pow2(3) == 8 && Pow2(4) == 16;
    assert Pow2(5) == 32 && Pow2(6) == 64;
    assert Pow2(7) == 128 && Pow2(8) == 256;
  }

  /** ceillog2, for x > 0. */
  method CeilLog2(x: nat) returns (l: nat)
    requires x > 0
    ensures x <= Pow2(l) && (l > 0 ==> Pow2(l - 1) < x)
    ensures Low(l) < x <= Pow2(l)
  {
    var b := Log2(x - 1);
    l := b + 1;
  }

  /** The slice a key is counted in is the only one it lies in. */
  lemma OneSlice(x: int, l: nat, lg: nat)
    requires Low(l) < x <= Pow2(l)
    ensures Low(lg) < x <= Pow2(lg) <==> lg == l
  {
    if lg < l { Pow2Grows(lg, l - 1); }
    if l < lg { Pow2Grows(l, lg - 1); }
  }

  /** nums after a key has been counted. */
  lemma Counted(nums: seq<nat>, nums': seq<nat>, S: set<int>, x: int, l: nat)
    requires Counts(nums, S) && x !in S && Low(l) < x <= Pow2(l) && l <= MAXBITS && nums' == nums[l := nums[l] + 1]
    ensures Counts(nums', S + {x})
  {
    forall lg | 0 <= lg <= MAXBITS ensures nums'[lg] == Slice(S + {x}, Low(lg), Pow2(lg)) {
      SliceAdd(S, x, Low(lg), Pow2(lg));
      OneSlice(x, l, lg);
    }
  }

  lemma NotCounted(nums: seq<nat>, S: set<int>, x: int)
    requires Counts(nums, S) && x !in S && !(0 < x <= Pow2(MAXBITS))
    ensures Counts(nums, S + {x})
  {
    forall lg | 0 <= lg <= MAXBITS ensures nums[lg] == Slice(S + {x}, Low(lg), Pow2(lg)) {
      SliceAdd(S, x, Low(lg), Pow2(lg));
      Pow2Grows(lg, MAXBITS);
    }
  }
}
