// strcmp on NUL-terminated strings of unsigned bytes, as a total order.
module StringOrder {

  // The bytes before the terminator.
  type char8 = x: int | 0 < x < 256 witness 1
  type CString = seq<char8>

  function At(s: CString): int {
    if s == [] then 0 else s[0]
  }

  // The difference of the first bytes that differ, the terminator counting as zero.
  function Strcmp(a: CString, b: CString): int
    decreases |a|
  {
    if At(a) != At(b) || a == [] then At(a) - At(b) else Strcmp(a[1..], b[1..])
  }

  lemma {:induction false} StrcmpEqual(a: CString, b: CString)
    ensures Strcmp(a, b) == 0 <==> a == b
    decreases |a|
  {
    if a != [] && At(a) == At(b) {
      StrcmpEqual(a[1..], b[1..]);
      assert a == [a[0]] + a[1..] && b == [b[0]] + b[1..];
    }
  }

  lemma {:induction false} StrcmpAntisymmetric(a: CString, b: CString)
    ensures Strcmp(a, b) == -Strcmp(b, a)
    decreases |a|
  {
    if a != [] && At(a) == At(b) {
      StrcmpAntisymmetric(a[1..], b[1..]);
    }
  }

  lemma {:induction false} StrcmpTransitive(a: CString, b: CString, c: CString)
    requires Strcmp(a, b) >= 0 && Strcmp(b, c) >= 0
    ensures Strcmp(a, c) >= 0
    ensures Strcmp(a, b) > 0 || Strcmp(b, c) > 0 ==> Strcmp(a, c) > 0
    decreases |a|
  {
    if a != [] && At(a) == At(b) == At(c) {
      StrcmpTransitive(a[1..], b[1..], c[1..]);
    }
  }

  // The strings agree up to k, where a goes on with a greater byte than b or b ends.
  predicate GreaterAt(a: CString, b: CString, k: nat) {
    k < |a| && k <= |b| && a[..k] == b[..k] && (k == |b| || a[k] > b[k])
  }

  // strcmp is positive exactly when there is such a place, so "descending" puts "b"
  // before "a" and "ab" before "a".
  lemma {:induction false} StrcmpPositiveIff(a: CString, b: CString)
    ensures Strcmp(a, b) > 0 <==> exists k: nat :: GreaterAt(a, b, k)
    decreases |a|
  {
    forall k: nat | 0 < k <= |a| && k <= |b| && a[..k] == b[..k] ensures At(a) == At(b) {
      assert a[..k][0] == b[..k][0];
    }
    if At(a) != At(b) || a == [] {
      if Strcmp(a, b) > 0 {
        assert GreaterAt(a, b, 0);
      }
    } else {
      StrcmpPositiveIff(a[1..], b[1..]);
      forall k: nat | GreaterAt(a[1..], b[1..], k) ensures GreaterAt(a, b, k + 1) {
        assert a[..k + 1] == [a[0]] + a[1..][..k] && b[..k + 1] == [b[0]] + b[1..][..k];
      }
      forall k: nat | GreaterAt(a, b, k) ensures k > 0 && GreaterAt(a[1..], b[1..], k - 1) {
        assert a[1..][..k - 1] == a[..k][1..] && b[1..][..k - 1] == b[..k][1..];
      }
    }
  }

  predicate Descending(s: seq<CString>) {
    forall i, j :: 0 <= i < j < |s| ==> Strcmp(s[i], s[j]) >= 0
  }

  predicate StrictlyDescending(s: seq<CString>) {
    forall i, j :: 0 <= i < j < |s| ==> Strcmp(s[i], s[j]) > 0
  }
}
