// Removing adjacent duplicates in place and membership, utils/system_utils.c, and
// what the two give together with the quicksort.
module StringDedup {
  import opened Common
  import opened StringOrder
  import opened StringSort

  // One string for each run of equal strings.
  function Runs(s: seq<CString>): (r: seq<CString>)
    ensures |r| <= |s|
    ensures s != [] ==> r != [] && r[|r| - 1] == s[|s| - 1]
  {
    if |s| <= 1 then s
    else
      var front := Runs(s[..|s| - 1]);
      if s[|s| - 1] == s[|s| - 2] then front else front + [s[|s| - 1]]
  }

  // strRmDuplicate. With no strings it still answers 1 and touches nothing.
  method StrRmDuplicate(strings: array<CString>, len: int) returns (count: int)
    requires len <= strings.Length
    modifies strings
    ensures len <= 0 ==> count == 1 && strings[..] == old(strings[..])
    ensures len > 0 ==>
      var r := Runs(old(strings[..len]));
      && count == |r| <= len
      && strings[..count] == r
      && strings[count..] == old(strings[count..])
  {
    count := 0;
    var i := 1;
    ghost var was := strings[..];
    if len <= 0 {   // the loop would not run
      return 1;
    }
    ghost var kept := [strings[0]];
    while i < len
      invariant 1 <= i <= len && |kept| == count + 1 <= i
      invariant kept == Runs(was[..i])
      invariant forall k :: 0 <= k <= count ==> strings[k] == kept[k]
      invariant forall k :: count < k < strings.Length ==> strings[k] == was[k]
      decreases len - i
    {
      StrcmpEqual(strings[count], strings[i]);
      RunsOneMore(was, i);
      if Strcmp(strings[count], strings[i]) != 0 {
        kept := kept + [strings[i]];
        count := count + 1;
        strings[count] := strings[i];
      }
      i := i + 1;
    }
    KeptCells(strings[..], kept, was);
    return count + 1;
  }

  lemma KeptCells(now: seq<CString>, kept: seq<CString>, was: seq<CString>)
    requires |kept| <= |now| == |was|
    requires forall k :: 0 <= k < |kept| ==> now[k] == kept[k]
    requires forall k :: |kept| <= k < |now| ==> now[k] == was[k]
    ensures now[..|kept|] == kept && now[|kept|..] == was[|kept|..]
  {
  }

  lemma RunsOneMore(s: seq<CString>, i: nat)
    requires 0 < i < |s|
    ensures var r := Runs(s[..i]);
      && r[|r| - 1] == s[i - 1]
      && Runs(s[..i + 1]) == if s[i] == s[i - 1] then r else r + [s[i]]
  {
    assert s[..i + 1][..i] == s[..i];
  }

  // isDataInList.
  method IsDataInList(list: array?<CString>, data: Option<CString>, count: int) returns (found: int)
    requires list != null ==> count <= list.Length
    ensures found == 0 || found == 1
    ensures found == 1 <==>
      list != null && data.Some? && exists k :: 0 <= k < count && list[k] == data.value
  {
    if list == null || data == None {
      return 0;
    }
    var index := 0;
    found := 0;
    while index < count
      invariant 0 <= index && (index == 0 || index <= count)
      invariant forall k :: 0 <= k < index ==> list[k] != data.value
      decreases count - index
    {
      StrcmpEqual(list[index], data.value);
      if Strcmp(list[index], data.value) == 0 {
        return 1;
      }
      index := index + 1;
    }
  }

  // --------------------------------------------------------------- properties

  lemma {:induction false} RunsKeepStrings(s: seq<CString>, x: CString)
    ensures x in Runs(s) <==> x in s
  {
    if |s| > 1 {
      var n := |s| - 1;
      RunsKeepStrings(s[..n], x);
      assert s == s[..n] + [s[n]];
      assert s[n - 1] in s[..n];
    }
  }

  lemma AppendStrict(front: seq<CString>, x: CString)
    requires StrictlyDescending(front)
    requires forall i :: 0 <= i < |front| ==> Strcmp(front[i], x) > 0
    ensures StrictlyDescending(front + [x])
  {
  }

  lemma AboveLast(front: seq<CString>, last: CString, x: CString)
    requires StrictlyDescending(front) && front != [] && front[|front| - 1] == last
    requires Strcmp(last, x) >= 0 && last != x
    ensures forall i :: 0 <= i < |front| ==> Strcmp(front[i], x) > 0
  {
    StrcmpEqual(last, x);
    forall i | 0 <= i < |front| ensures Strcmp(front[i], x) > 0 {
      if i < |front| - 1 {
        StrcmpTransitive(front[i], last, x);
      }
    }
  }

  lemma {:induction false} RunsOfSorted(s: seq<CString>)
    requires Descending(s)
    ensures StrictlyDescending(Runs(s))
  {
    if |s| > 1 {
      var n := |s| - 1;
      var front := Runs(s[..n]);
      RunsOfSorted(s[..n]);
      if s[n] == s[n - 1] {
        assert Runs(s) == front;
      } else {
        AboveLast(front, s[n - 1], s[n]);
        AppendStrict(front, s[n]);
        assert Runs(s) == front + [s[n]];
      }
    }
  }

  function Distinct(s: seq<CString>): set<CString> {
    set x | x in s
  }

  lemma DistinctOneMore(front: seq<CString>, x: CString)
    ensures Distinct(front + [x]) == Distinct(front) + {x}
    ensures |Distinct(front + [x])| == |Distinct(front)| + (if x in front then 0 else 1)
  {
  }

  lemma {:induction false} StrictHasNoRepeats(s: seq<CString>)
    requires StrictlyDescending(s)
    ensures |Distinct(s)| == |s|
  {
    if s != [] {
      var n := |s| - 1;
      StrictHasNoRepeats(s[..n]);
      forall k | 0 <= k < n ensures s[k] != s[n] {
        StrcmpEqual(s[k], s[n]);
      }
      assert s == s[..n] + [s[n]];
      DistinctOneMore(s[..n], s[n]);
    }
  }

  // Sort, then dedup: strictly descending, the same strings, one for each distinct one.
  lemma SortThenDedup(original: seq<CString>)
    ensures var r := Runs(QuickSorted(original));
      && StrictlyDescending(r)
      && Distinct(r) == Distinct(original)
      && |r| == |Distinct(original)|
  {
    var sorted := QuickSorted(original);
    SortedIsDescending(original);
    SortedIsPermutation(original);
    RunsOfSorted(sorted);
    StrictHasNoRepeats(Runs(sorted));
    forall x ensures x in Runs(sorted) <==> x in original {
      RunsKeepStrings(sorted, x);
      assert x in sorted <==> x in multiset(sorted);
      assert x in original <==> x in multiset(original);
    }
    assert Distinct(Runs(sorted)) == Distinct(original);
  }

  lemma MemberOfDedup(original: seq<CString>, x: CString)
    ensures x in Runs(QuickSorted(original)) <==> x in original
  {
    SortThenDedup(original);
    assert x in Distinct(Runs(QuickSorted(original))) <==> x in Distinct(original);
  }

  // qsString on the whole array.
  method SortAll(arr: array<CString>)
    modifies arr
    ensures arr[..] == QuickSorted(old(arr[..]))
  {
    ghost var s := arr[..];
    var _ := QsString(arr, 0, arr.Length);
    assert s[0..arr.Length] == s && s[..0] == [] && s[arr.Length..] == [];
    assert [] + QuickSorted(s) + [] == QuickSorted(s);
  }

  // Sorting, removing duplicates and looking a string up, as a caller does: the count is
  // that of the distinct strings, which come first in strictly descending order, and the
  // look-up decides membership in the original.
  method SortDedupFind(arr: array<CString>, x: CString) returns (count: int, found: int)
    requires arr.Length > 0
    modifies arr
    ensures 0 <= count <= arr.Length && count == |Distinct(old(arr[..]))|
    ensures StrictlyDescending(arr[..count]) && Distinct(arr[..count]) == Distinct(old(arr[..]))
    ensures found == 1 <==> x in old(arr[..])
  {
    ghost var original := arr[..];
    SortAll(arr);
    assert arr[..arr.Length] == arr[..];
    count := StrRmDuplicate(arr, arr.Length);
    found := IsDataInList(arr, Some(x), count);
    ghost var kept := arr[..count];
    assert x in kept <==> exists k :: 0 <= k < count && arr[k] == x;
    SortThenDedup(original);
    MemberOfDedup(original, x);
  }

  // Equal strings are next to each other.
  predicate Grouped(s: seq<CString>) {
    forall i, j :: 0 <= i < j < |s| && s[i] == s[j] ==> s[j - 1] == s[j]
  }

  lemma GroupedFront(front: seq<CString>, x: CString)
    requires front != [] && Grouped(front + [x])
    ensures Grouped(front) && (x in front ==> front[|front| - 1] == x)
  {
    var s, n := front + [x], |front|;
    if x in front {
      var k :| 0 <= k < n && front[k] == x;
      assert s[k] == s[n] && s[n - 1] == front[n - 1];
    }
    forall i, j | 0 <= i < j < n && front[i] == front[j] ensures front[j - 1] == front[j] {
      assert s[i] == s[j] && s[j - 1] == front[j - 1];
    }
  }

  lemma GroupedBack(front: seq<CString>, x: CString)
    requires front != [] && Grouped(front) && (x in front ==> front[|front| - 1] == x)
    ensures Grouped(front + [x])
  {
  }

  lemma CountsOneMore(front: seq<CString>, x: CString)
    requires front != []
    ensures |Runs(front + [x])| == |Runs(front)| + (if front[|front| - 1] == x then 0 else 1)
    ensures |Distinct(front + [x])| == |Distinct(front)| + (if x in front then 0 else 1)
  {
    assert (front + [x])[..|front|] == front;
    DistinctOneMore(front, x);
  }

  // Without sorting first, the count is the number of distinct strings exactly when
  // equal strings are next to each other.
  lemma {:induction false} RunsCountDistinctIff(s: seq<CString>)
    ensures |Distinct(s)| <= |Runs(s)|
    ensures |Runs(s)| == |Distinct(s)| <==> Grouped(s)
  {
    if |s| <= 1 {
      StrictHasNoRepeats(s);
    } else {
      var front, x := s[..|s| - 1], s[|s| - 1];
      assert s == front + [x];
      RunsCountDistinctIff(front);
      CountsOneMore(front, x);
      assert front[|front| - 1] in front;
      if Grouped(s) {
        GroupedFront(front, x);
      }
      if Grouped(front) && (x in front ==> front[|front| - 1] == x) {
        GroupedBack(front, x);
      }
    }
  }

  // A string that comes back after another one is counted twice.
  lemma CountedTwice(a: CString, b: CString)
    requires a != b
    ensures !Grouped([a, b, a]) && Runs([a, b, a]) == [a, b, a] && Distinct([a, b, a]) == {a, b}
  {
    var s := [a, b, a];
    assert s[..2] == [a, b] && s[..2][..1] == [a];
    assert s[0] == s[2] && s[1] != s[2];
  }

  // What Runs does to any list, sorted or not: it leaves no two equal neighbours, does
  // nothing where there are none, and does not tell a string from the same one twice.
  predicate NoEqualNeighbours(s: seq<CString>) {
    forall k :: 0 < k < |s| ==> s[k - 1] != s[k]
  }

  lemma {:induction false} RunsAreFixed(s: seq<CString>)
    ensures NoEqualNeighbours(Runs(s))
    ensures NoEqualNeighbours(s) ==> Runs(s) == s
  {
    if |s| > 1 {
      var front := s[..|s| - 1];
      RunsAreFixed(front);
      assert s == front + [s[|s| - 1]];
    }
  }

  lemma RunsAppend(s: seq<CString>, x: CString)
    requires s != []
    ensures Runs(s + [x]) == if s[|s| - 1] == x then Runs(s) else Runs(s) + [x]
  {
    assert (s + [x])[..|s|] == s;
  }

  lemma {:induction false} RunsCollapse(a: seq<CString>, x: CString, b: seq<CString>)
    ensures Runs(a + [x, x] + b) == Runs(a + [x] + b)
    decreases |b|
  {
    var twice, once := a + [x, x], a + [x];
    if b == [] {
      assert twice + b == once + [x] && once + b == once;
      RunsAppend(once, x);
    } else {
      var n := |b| - 1;
      RunsCollapse(a, x, b[..n]);
      assert twice + b == twice + b[..n] + [b[n]] && once + b == once + b[..n] + [b[n]];
      RunsAppend(twice + b[..n], b[n]);
      RunsAppend(once + b[..n], b[n]);
      assert n == 0 ==> twice + b[..n] == twice && once + b[..n] == once;
    }
  }
}
