// makeHttpHttps of utils/common_device_api.c: inserting an 's' in place.
module HttpUpgrade {
  import opened Common

  const HTTP := "http://"

  // ------------------------------------------------------------ specification

  predicate HttpAt(s: string, k: nat) {
    OccursAt(s, HTTP, k)
  }

  // The first place at or after k where "http://" occurs, or the length of the text.
  function FirstFrom(s: string, k: nat): (p: nat)
    requires k <= |s|
    ensures k <= p <= |s|
    ensures p < |s| ==> HttpAt(s, p)
    ensures forall j :: k <= j < p ==> !HttpAt(s, j)
    decreases |s| - k
  {
    if k == |s| || HttpAt(s, k) then k else FirstFrom(s, k + 1)
  }

  // The first "http://" replaced by "https://".
  function Upgraded(s: string): string {
    var p := FirstFrom(s, 0);
    if p == |s| then s else s[..p + 4] + "s" + s[p + 4..]
  }

  // How many occurrences start at or after k.
  function Count(s: string, k: nat): nat
    decreases |s| - k
  {
    if k >= |s| then 0 else (if HttpAt(s, k) then 1 else 0) + Count(s, k + 1)
  }

  // ----------------------------------------------------------------- the code

  // The C string in a buffer, or all of the buffer but its last place when none of the
  // places before that holds a terminator.
  function TextEnd(buf: seq<char>): (n: nat)
    requires buf != []
    ensures n < |buf|
    ensures forall k :: 0 <= k < n ==> buf[k] != '\0'
    ensures n < |buf| - 1 ==> buf[n] == '\0'
  {
    if |buf| == 1 || buf[0] == '\0' then 0 else 1 + TextEnd(buf[1..])
  }

  // strstr, on the text before the terminator.
  method Strstr(buf: array<char>, len: nat) returns (p: nat)
    requires len <= buf.Length
    ensures p == FirstFrom(buf[..len], 0)
  {
    p := 0;
    while p < len && !(p + 7 <= len && buf[p..p + 7] == HTTP)
      invariant p <= len
      invariant FirstFrom(buf[..len], 0) == FirstFrom(buf[..len], p)
    {
      assert p + 7 <= len ==> buf[..len][p..p + 7] == buf[p..p + 7];
      p := p + 1;
    }
    assert p + 7 <= len ==> buf[..len][p..p + 7] == buf[p..p + 7];
  }

  // The shift: everything behind pTmp, terminator included, moves one place to the
  // right, and an 's' goes in between.
  method InsertS(pIn: array<char>, pTmp: nat, len: nat)
    requires pTmp < len && len + 1 < pIn.Length
    modifies pIn
    ensures pIn[..len + 2] == old(pIn[..pTmp + 1]) + "s" + old(pIn[pTmp + 1..len + 1])
    ensures pIn[len + 2..] == old(pIn[len + 2..])
  {
    var pEnd := len;
    while pEnd > pTmp
      invariant pTmp <= pEnd <= len
      invariant forall k :: 0 <= k <= pEnd ==> pIn[k] == old(pIn[k])
      invariant forall k :: pEnd < k <= len ==> pIn[k + 1] == old(pIn[k])
      invariant forall k :: len + 1 < k < pIn.Length ==> pIn[k] == old(pIn[k])
    {
      pIn[pEnd + 1] := pIn[pEnd];
      pEnd := pEnd - 1;
    }
    pIn[pTmp + 1] := 's';
    assert pIn[..pTmp + 1] == old(pIn[..pTmp + 1]);
    assert pIn[pTmp + 2..len + 2] == old(pIn[pTmp + 1..len + 1]);
  }

  lemma UpgradedText(buf: seq<char>, len: nat, p: nat, after: seq<char>)
    requires len < |buf| == |after| && p + 4 <= len && len + 2 <= |after|
    requires after[..len + 2] == buf[..p + 4] + "s" + buf[p + 4..len + 1]
    ensures after[..len + 1] == buf[..len][..p + 4] + "s" + buf[..len][p + 4..]
    ensures after[len + 1] == buf[len]
  {
    var text := after[..len + 2];
    assert buf[p + 4..len + 1] == buf[p + 4..len] + [buf[len]];
    assert text == buf[..p + 4] + "s" + buf[p + 4..len] + [buf[len]];
    assert after[..len + 1] == text[..len + 1] && after[len + 1] == text[len + 1];
  }

  // The scan for the end of the text, leaving room for one more character or none.
  method ScanEnd(pIn: array<char>) returns (pEnd: nat, i: nat)
    requires pIn.Length > 0
    ensures pEnd == TextEnd(pIn[..]) && i == pIn.Length - 1 - pEnd
  {
    pEnd := 0;
    i := pIn.Length - 1;
    while i > 0 && pIn[pEnd] != '\0'
      invariant pEnd + i == pIn.Length - 1
      invariant TextEnd(pIn[..]) == pEnd + TextEnd(pIn[pEnd..])
    {
      i := i - 1;
      pEnd := pEnd + 1;
    }
  }

  // makeHttpHttps; pIn may be missing (NULL), and its size is that of the array.
  method MakeHttpHttps(pIn: array?<char>) returns (len: nat)
    modifies pIn
    ensures pIn == null || pIn.Length == 0 ==> len == 0
    ensures pIn != null && pIn.Length > 0 ==>
      var size := pIn.Length;
      var end := TextEnd(old(pIn[..]));
      var text := old(pIn[..])[..end];
      if end == size - 1 then len == end && pIn[..] == old(pIn[..])
      else
        && len == |Upgraded(text)| < size
        && pIn[..][..len] == Upgraded(text) && pIn[len] == '\0'
        && pIn[len + 1..] == old(pIn[len + 1..])
  {
    len := 0;
    if pIn != null && pIn.Length > 0 {
      var i;
      len, i := ScanEnd(pIn);
      if i > 0 {
        ghost var was := pIn[..];
        var pTmp := Strstr(pIn, len);
        if pTmp < len {
          pTmp := pTmp + 3;
          InsertS(pIn, pTmp, len);
          UpgradedText(was, len, pTmp - 3, pIn[..]);
          len := len + 1;
        }
      }
    }
  }

  // --------------------------------------------------------------- properties

  lemma UpgradedAt(s: string, k: nat)
    requires FirstFrom(s, 0) < |s| && k < |s| + 1
    ensures var p, u := FirstFrom(s, 0), Upgraded(s);
      && |u| == |s| + 1
      && u[k] == if k < p + 4 then s[k] else if k == p + 4 then 's' else s[k - 1]
  {
  }

  lemma OccurrenceIs(s: string, k: nat)
    requires k + 7 <= |s|
    ensures HttpAt(s, k) <==>
      s[k] == 'h' && s[k + 1] == 't' && s[k + 2] == 't' && s[k + 3] == 'p' &&
      s[k + 4] == ':' && s[k + 5] == '/' && s[k + 6] == '/'
  {
    var w := s[k..k + 7];
    assert forall j :: 0 <= j < 7 ==> w[j] == s[k + j];
  }

  lemma NoneAcross(u: string, k: nat, q: nat)
    requires k <= q < k + 7 && q < |u| && u[q] == 's'
    ensures !HttpAt(u, k)
  {
    if k + 7 <= |u| {
      assert u[k..k + 7][q - k] == 's';
    }
  }

  lemma OccursBefore(a: string, b: string, c: string, k: nat)
    requires k + 7 <= |a|
    ensures HttpAt(a + b + c, k) <==> HttpAt(a + c, k)
  {
    assert (a + b + c)[k..k + 7] == a[k..k + 7] == (a + c)[k..k + 7];
  }

  lemma OccursBehind(a: string, b: string, c: string, k: nat)
    ensures HttpAt(a + b + c, |a| + |b| + k) <==> HttpAt(a + c, |a| + k)
  {
    if k + 7 <= |c| {
      assert (a + b + c)[|a| + |b| + k..|a| + |b| + k + 7] == c[k..k + 7] == (a + c)[|a| + k..|a| + k + 7];
    }
  }

  lemma OccursAround(a: string, c: string, k: nat)
    ensures HttpAt(a + "s" + c, k) <==>
            (k + 7 <= |a| && HttpAt(a + c, k)) || (k > |a| && HttpAt(a + c, k - 1))
  {
    if k + 7 <= |a| {
      OccursBefore(a, "s", c, k);
    } else if k <= |a| {
      NoneAcross(a + "s" + c, k, |a|);
    } else {
      OccursBehind(a, "s", c, k - |a| - 1);
    }
  }

  lemma SplitAtColon(s: string) returns (a: string, c: string)
    requires FirstFrom(s, 0) < |s|
    ensures |a| == FirstFrom(s, 0) + 4 && s == a + c && Upgraded(s) == a + "s" + c
  {
    a, c := s[..FirstFrom(s, 0) + 4], s[FirstFrom(s, 0) + 4..];
  }

  // Up to the inserted 's' nothing occurs any more; behind it the occurrences are the
  // old ones, one place further on.
  lemma OccurrencesMove(s: string, k: nat)
    requires FirstFrom(s, 0) < |s|
    ensures var p := FirstFrom(s, 0);
      HttpAt(Upgraded(s), k) <==> k > p + 4 && HttpAt(s, k - 1)
  {
    var a, c := SplitAtColon(s);
    OccursAround(a, c, k);
  }

  lemma {:induction false} CountMoves(s: string, k: nat)
    requires FirstFrom(s, 0) < |s| && FirstFrom(s, 0) + 4 <= k <= |s|
    ensures Count(Upgraded(s), k + 1) == Count(s, k)
    decreases |s| - k
  {
    UpgradedAt(s, 0);
    if k < |s| {
      OccurrencesMove(s, k + 1);
      CountMoves(s, k + 1);
    }
  }

  lemma {:induction false} CountSkips(s: string, a: nat, b: nat)
    requires a <= b && forall k :: a <= k < b ==> !HttpAt(s, k)
    ensures Count(s, a) == Count(s, b)
    decreases b - a
  {
    if a < b {
      CountSkips(s, a + 1, b);
    }
  }

  // One call takes away exactly one occurrence, or changes nothing when there is none.
  lemma UpgradeLowersCount(s: string)
    ensures Count(s, 0) == 0 <==> Upgraded(s) == s
    ensures Count(s, 0) > 0 ==>
      Count(Upgraded(s), 0) == Count(s, 0) - 1 && |Upgraded(s)| == |s| + 1
  {
    var p, u := FirstFrom(s, 0), Upgraded(s);
    CountSkips(s, 0, p);
    if p < |s| {
      OccurrenceIs(s, p);
      UpgradedAt(s, 0);
      forall k | p + 1 <= k < p + 4 ensures !HttpAt(s, k) {
        if k + 7 <= |s| {
          OccurrenceIs(s, k);
        }
      }
      CountSkips(s, p + 1, p + 4);
      forall k | 0 <= k < p + 5 ensures !HttpAt(u, k) {
        OccurrencesMove(s, k);
      }
      CountSkips(u, 0, p + 5);
      CountMoves(s, p + 4);
    }
  }

  // Nothing is left to upgrade exactly when strstr finds nothing.
  lemma UpgradedIff(s: string)
    ensures Upgraded(s) != s <==> Contains(s, HTTP)
  {
    var p := FirstFrom(s, 0);
    if Contains(s, HTTP) {
      var k :| 0 <= k <= |s| && OccursAt(s, HTTP, k);
      assert HttpAt(s, k) && p < |s|;
      assert |Upgraded(s)| == |s| + 1;
    }
    if p < |s| {
      assert HttpAt(s, p);
    }
  }

  // As many calls as there are occurrences upgrade all of them.
  function UpgradedTimes(s: string, n: nat): string
    decreases n
  {
    if n == 0 then s else UpgradedTimes(Upgraded(s), n - 1)
  }

  lemma {:induction false} AllUpgraded(s: string, n: nat)
    ensures Count(UpgradedTimes(s, n), 0) == if n < Count(s, 0) then Count(s, 0) - n else 0
    ensures |UpgradedTimes(s, n)| == |s| + if n < Count(s, 0) then n else Count(s, 0)
    decreases n
  {
    if n > 0 {
      UpgradeLowersCount(s);
      AllUpgraded(Upgraded(s), n - 1);
    }
  }
}
