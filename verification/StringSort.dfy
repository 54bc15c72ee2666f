// The in-place quicksort of utils/system_utils.c.
module StringSort {
  import opened StringOrder

  // ------------------------------------------------------------ specification

  function Swapped(r: seq<CString>, i: nat, j: nat): (t: seq<CString>)
    requires i < |r| && j < |r|
    ensures |t| == |r|
  {
    r[i := r[j]][j := r[i]]
  }

  datatype Scanned = Scanned(strings: seq<CString>, piv: nat)

  // One turn of the partition loop, at index i.
  function Turn(s: Scanned, i: nat): (t: Scanned)
    requires i < |s.strings| && s.piv <= i
    ensures |t.strings| == |s.strings| && t.piv <= i + 1
  {
    if Strcmp(s.strings[i], s.strings[|s.strings| - 1]) > 0
    then Scanned(Swapped(s.strings, i, s.piv), s.piv + 1)
    else s
  }

  // The range after i turns.
  function Scan(r: seq<CString>, i: nat): (s: Scanned)
    requires i <= |r|
    ensures |s.strings| == |r| && s.piv <= i
  {
    if i == 0 then Scanned(r, 0) else Turn(Scan(r, i - 1), i - 1)
  }

  lemma SwappedPermutes(r: seq<CString>, i: nat, j: nat)
    requires i < |r| && j < |r|
    ensures multiset(Swapped(r, i, j)) == multiset(r)
  {
  }

  lemma TurnPermutes(s: Scanned, i: nat)
    requires i < |s.strings| && s.piv <= i
    ensures multiset(Turn(s, i).strings) == multiset(s.strings)
  {
  }

  lemma {:induction false} ScanPermutes(r: seq<CString>, i: nat)
    requires i <= |r|
    ensures multiset(Scan(r, i).strings) == multiset(r)
  {
    if i > 0 {
      ScanPermutes(r, i - 1);
      TurnPermutes(Scan(r, i - 1), i - 1);
    }
  }

  lemma TurnSplits(s: Scanned, i: nat, p: CString)
    requires i < |s.strings| && s.piv <= i && s.strings[|s.strings| - 1] == p
    requires forall k :: 0 <= k < s.piv ==> Strcmp(s.strings[k], p) > 0
    requires forall k :: s.piv <= k < i ==> Strcmp(s.strings[k], p) <= 0
    ensures var t := Turn(s, i);
      && t.piv < |s.strings|
      && t.strings[|s.strings| - 1] == p
      && (forall k :: 0 <= k < t.piv ==> Strcmp(t.strings[k], p) > 0)
      && (forall k :: t.piv <= k < i + 1 ==> Strcmp(t.strings[k], p) <= 0)
  {
    StrcmpEqual(p, p);
  }

  // Before the last turn the pivot is still in place; the last turn compares it with itself.
  lemma {:induction false} ScanInvariant(r: seq<CString>, i: nat)
    requires 0 < |r| && i <= |r|
    ensures var s, p := Scan(r, i), r[|r| - 1];
      && s.piv < |r|
      && s.strings[|r| - 1] == p
      && (forall k :: 0 <= k < s.piv ==> Strcmp(s.strings[k], p) > 0)
      && (forall k :: s.piv <= k < i ==> Strcmp(s.strings[k], p) <= 0)
  {
    if i > 0 {
      ScanInvariant(r, i - 1);
      TurnSplits(Scan(r, i - 1), i - 1, r[|r| - 1]);
    }
  }

  // The partitioned range: piv is where the last string of the input went.
  function Partition(r: seq<CString>): (s: Scanned)
    requires 0 < |r|
    ensures |s.strings| == |r| && s.piv < |r|
  {
    ScanInvariant(r, |r|);
    var s := Scan(r, |r|);
    Scanned(Swapped(s.strings, s.piv, |r| - 1), s.piv)
  }

  function QuickSorted(r: seq<CString>): (t: seq<CString>)
    ensures |t| == |r|
    decreases |r|
  {
    if |r| <= 1 then r
    else
      var s := Partition(r);
      QuickSorted(s.strings[..s.piv]) + [s.strings[s.piv]] + QuickSorted(s.strings[s.piv + 1..])
  }

  // The number of strcmp calls made on the way.
  function Comparisons(r: seq<CString>): nat
    decreases |r|
  {
    if |r| <= 1 then 0
    else
      var s := Partition(r);
      |r| + Comparisons(s.strings[..s.piv]) + Comparisons(s.strings[s.piv + 1..])
  }

  // ---------------------------------------------------------------- the code

  method Swap(arr: array<CString>, a: nat, b: nat)
    requires a < arr.Length && b < arr.Length
    modifies arr
    ensures arr[a] == old(arr[b]) && arr[b] == old(arr[a])
    ensures forall k :: 0 <= k < arr.Length && k != a && k != b ==> arr[k] == old(arr[k])
  {
    var temp := arr[a];
    arr[a] := arr[b];
    arr[b] := temp;
  }

  // The strings of s: a part before, the range, a part after.
  ghost predicate Framed(s: seq<CString>, pre: seq<CString>, r: seq<CString>, post: seq<CString>) {
    s == pre + r + post
  }

  lemma FramedParts(s: seq<CString>, pre: seq<CString>, r: seq<CString>, post: seq<CString>)
    requires Framed(s, pre, r, post)
    ensures s[..|pre|] == pre && s[|pre|..|pre| + |r|] == r && s[|pre| + |r|..] == post
  {
  }

  lemma PartsFramed(s: seq<CString>, base: nat, length: nat)
    requires base + length <= |s|
    ensures Framed(s, s[..base], s[base..base + length], s[base + length..])
  {
  }

  lemma PivotInside(r: seq<CString>, i: nat)
    requires 0 < |r| && i <= |r|
    ensures Scan(r, i).piv < |r|
  {
    ScanInvariant(r, i);
  }

  // The cells from base on hold exactly these strings.
  ghost predicate Holds(arr: array<CString>, base: nat, strings: seq<CString>)
    reads arr
  {
    base + |strings| <= arr.Length && forall k :: 0 <= k < |strings| ==> arr[base + k] == strings[k]
  }

  twostate predicate SameOutside(arr: array<CString>, base: nat, length: nat)
    reads arr
  {
    forall k :: 0 <= k < arr.Length && !(base <= k < base + length) ==> arr[k] == old(arr[k])
  }

  method SwapInRange(arr: array<CString>, base: nat, ghost strings: seq<CString>, i: nat, j: nat)
    requires Holds(arr, base, strings) && i < |strings| && j < |strings|
    modifies arr
    ensures Holds(arr, base, Swapped(strings, i, j)) && SameOutside(arr, base, |strings|)
  {
    Swap(arr, base + i, base + j);
  }

  // The partition loop of qsString and the swap after it; calls counts strcmp.
  method PartitionInPlace(arr: array<CString>, base: nat, length: nat) returns (piv: nat, ghost calls: nat)
    requires 0 < length && base + length <= arr.Length
    modifies arr
    ensures var s := Partition(old(arr[base..base + length]));
      piv == s.piv && calls == length && Holds(arr, base, s.strings)
    ensures SameOutside(arr, base, length)
  {
    piv, calls := 0, 0;
    ghost var r := arr[base..base + length];
    ghost var now := Scanned(r, 0);
    for i := 0 to length
      invariant calls == i && piv == now.piv && |now.strings| == length
      invariant now == Scan(r, i)
      invariant Holds(arr, base, now.strings) && SameOutside(arr, base, length)
    {
      PivotInside(r, i);
      calls := calls + 1;
      ghost var before := now;
      now := Turn(now, i);
      if Strcmp(arr[base + i], arr[base + length - 1]) > 0 {
        SwapInRange(arr, base, before.strings, i, piv);
        piv := piv + 1;
      }
    }
    PivotInside(r, length);
    SwapInRange(arr, base, now.strings, piv, length - 1);
  }

  lemma CellsFramed(s: seq<CString>, pre: seq<CString>, r: seq<CString>, post: seq<CString>)
    requires |s| == |pre| + |r| + |post|
    requires forall k :: 0 <= k < |pre| ==> s[k] == pre[k]
    requires forall k :: 0 <= k < |r| ==> s[|pre| + k] == r[k]
    requires forall k :: |pre| + |r| <= k < |s| ==> s[k] == post[k - |pre| - |r|]
    ensures Framed(s, pre, r, post)
  {
  }

  // qsString on the length strings that start at base.
  method QsString(arr: array<CString>, base: nat, length: nat) returns (ghost calls: nat)
    requires base + length <= arr.Length
    modifies arr
    ensures var was := old(arr[..]);
      && Framed(arr[..], was[..base], QuickSorted(was[base..base + length]), was[base + length..])
      && calls == Comparisons(was[base..base + length])
    decreases length
  {
    ghost var pre, r, post := arr[..][..base], arr[..][base..base + length], arr[..][base + length..];
    PartsFramed(arr[..], base, length);
    if length <= 1 {
      return 0;
    }
    var piv;
    piv, calls := PartitionInPlace(arr, base, length);
    ghost var t := Partition(r).strings;
    ghost var t1, p, t2 := t[..piv], [t[piv]], t[piv + 1..];
    CellsFramed(arr[..], pre, t, post);
    Refocus(arr[..], pre, t, post, piv);
    FramedParts(arr[..], pre, t1, p + t2 + post);
    ghost var c1 := QsString(arr, base, piv);
    ghost var left := QuickSorted(t1);
    Advance(arr[..], pre, left, p, t2, post);
    FramedParts(arr[..], pre + left + p, t2, post);
    ghost var c2 := QsString(arr, base + (piv + 1), length - (piv + 1));
    calls := calls + c1 + c2;
    Regroup(arr[..], pre, left, p, QuickSorted(t2), post);
  }

  lemma Advance(s: seq<CString>, a: seq<CString>, b: seq<CString>, c: seq<CString>, d: seq<CString>, e: seq<CString>)
    requires Framed(s, a, b, c + d + e)
    ensures Framed(s, a + b + c, d, e)
  {
  }

  lemma Regroup(s: seq<CString>, a: seq<CString>, b: seq<CString>, c: seq<CString>, d: seq<CString>, e: seq<CString>)
    requires Framed(s, a + b + c, d, e)
    ensures Framed(s, a, b + c + d, e)
  {
  }

  lemma Refocus(s: seq<CString>, pre: seq<CString>, t: seq<CString>, post: seq<CString>, piv: nat)
    requires Framed(s, pre, t, post) && piv < |t|
    ensures Framed(s, pre, t[..piv], [t[piv]] + t[piv + 1..] + post)
  {
  }

  // --------------------------------------------------------------- properties

  lemma PartitionPermutes(r: seq<CString>)
    requires 0 < |r|
    ensures multiset(Partition(r).strings) == multiset(r)
  {
    ScanInvariant(r, |r|);
    ScanPermutes(r, |r|);
    SwappedPermutes(Scan(r, |r|).strings, Scan(r, |r|).piv, |r| - 1);
  }

  lemma PartitionOrders(r: seq<CString>)
    requires 0 < |r|
    ensures var s := Partition(r);
      && (forall k :: 0 <= k < s.piv ==> Strcmp(s.strings[k], s.strings[s.piv]) > 0)
      && (forall k :: s.piv < k < |r| ==> Strcmp(s.strings[k], s.strings[s.piv]) <= 0)
  {
    ScanInvariant(r, |r|);
  }

  lemma SplitPermutes(t: seq<CString>, k: nat, a: seq<CString>, b: seq<CString>)
    requires k < |t| && multiset(a) == multiset(t[..k]) && multiset(b) == multiset(t[k + 1..])
    ensures multiset(a + [t[k]] + b) == multiset(t)
  {
    assert t == t[..k] + [t[k]] + t[k + 1..];
  }

  lemma QuickSortedIs(r: seq<CString>) returns (t: seq<CString>, k: nat)
    requires |r| > 1
    ensures k < |t| == |r| && multiset(t) == multiset(r)
    ensures QuickSorted(r) == QuickSorted(t[..k]) + [t[k]] + QuickSorted(t[k + 1..])
  {
    PartitionPermutes(r);
    t, k := Partition(r).strings, Partition(r).piv;
  }

  lemma {:induction false} SortedIsPermutation(r: seq<CString>)
    ensures multiset(QuickSorted(r)) == multiset(r)
    decreases |r|
  {
    if |r| > 1 {
      var t, k := QuickSortedIs(r);
      SortedIsPermutation(t[..k]);
      SortedIsPermutation(t[k + 1..]);
      SplitPermutes(t, k, QuickSorted(t[..k]), QuickSorted(t[k + 1..]));
    }
  }

  lemma SortedMembers(r: seq<CString>, k: nat) returns (j: nat)
    requires k < |r|
    ensures j < |r| && QuickSorted(r)[k] == r[j]
  {
    SortedIsPermutation(r);
    assert QuickSorted(r)[k] in multiset(r);
    j :| 0 <= j < |r| && r[j] == QuickSorted(r)[k];
  }

  lemma SortedStaysAbove(r: seq<CString>, p: CString)
    requires forall k :: 0 <= k < |r| ==> Strcmp(r[k], p) > 0
    ensures forall k :: 0 <= k < |r| ==> Strcmp(QuickSorted(r)[k], p) >= 0
  {
    forall k | 0 <= k < |r| ensures Strcmp(QuickSorted(r)[k], p) >= 0 {
      var j := SortedMembers(r, k);
    }
  }

  lemma SortedStaysBelow(r: seq<CString>, p: CString)
    requires forall k :: 0 <= k < |r| ==> Strcmp(r[k], p) <= 0
    ensures forall k :: 0 <= k < |r| ==> Strcmp(p, QuickSorted(r)[k]) >= 0
  {
    forall k | 0 <= k < |r| ensures Strcmp(p, QuickSorted(r)[k]) >= 0 {
      var j := SortedMembers(r, k);
      StrcmpAntisymmetric(p, r[j]);
    }
  }

  // Sorting ends in non-increasing strcmp order.
  lemma {:induction false} SortedIsDescending(r: seq<CString>)
    ensures Descending(QuickSorted(r))
    decreases |r|
  {
    if |r| > 1 {
      PartitionOrders(r);
      var s := Partition(r);
      var left, p, right := s.strings[..s.piv], s.strings[s.piv], s.strings[s.piv + 1..];
      SortedIsDescending(left);
      SortedIsDescending(right);
      SortedStaysAbove(left, p);
      SortedStaysBelow(right, p);
      JoinDescending(QuickSorted(left), p, QuickSorted(right));
    }
  }

  lemma JoinDescending(a: seq<CString>, p: CString, b: seq<CString>)
    requires Descending(a) && Descending(b)
    requires forall k :: 0 <= k < |a| ==> Strcmp(a[k], p) >= 0
    requires forall k :: 0 <= k < |b| ==> Strcmp(p, b[k]) >= 0
    ensures Descending(a + [p] + b)
  {
    var t := a + [p] + b;
    forall i, j | 0 <= i < j < |t| ensures Strcmp(t[i], t[j]) >= 0 {
      if i < |a| && j > |a| {
        StrcmpTransitive(a[i], p, b[j - |a| - 1]);
      }
    }
  }

  lemma SplitCost(n: nat, a: nat, b: nat)
    requires n == a + b + 1
    ensures a * (a + 1) + b * (b + 1) + 2 * n <= n * (n + 1)
    ensures a > 0 && b > 0 ==> a * (a + 1) + b * (b + 1) + 2 * n <= n * (n + 1) + 2
  {
  }

  // At most n(n+1)/2 - 1 comparisons for n strings, none for none.
  lemma {:induction false} ComparisonBound(r: seq<CString>)
    ensures 2 * Comparisons(r) + (if r == [] then 0 else 2) <= |r| * (|r| + 1)
    decreases |r|
  {
    if |r| > 1 {
      var s := Partition(r);
      var left, right := s.strings[..s.piv], s.strings[s.piv + 1..];
      ComparisonBound(left);
      ComparisonBound(right);
      SplitCost(|r|, |left|, |right|);
    }
  }

  lemma {:induction false} ScanOfDescending(r: seq<CString>, i: nat)
    requires 0 < |r| && i <= |r| && StrictlyDescending(r)
    ensures Scan(r, i) == Scanned(r, if i < |r| then i else |r| - 1)
  {
    if i > 0 {
      ScanOfDescending(r, i - 1);
      StrcmpEqual(r[|r| - 1], r[|r| - 1]);
    }
  }

  lemma Triangle(n: nat)
    requires n > 0
    ensures n * (n + 1) == (n - 1) * n + 2 * n
  {
  }

  // The bound is reached by every list that is already in strictly descending order.
  lemma {:induction false} SortedInputIsTheWorst(r: seq<CString>)
    requires r != [] && StrictlyDescending(r)
    ensures 2 * Comparisons(r) + 2 == |r| * (|r| + 1)
    decreases |r|
  {
    if |r| > 1 {
      ScanOfDescending(r, |r|);
      var n := |r|;
      assert Partition(r) == Scanned(r, n - 1);
      assert r[n..] == [];
      SortedInputIsTheWorst(r[..n - 1]);
      Triangle(n);
    }
  }
}
