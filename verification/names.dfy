/** Name order. The source compares names with the locale-aware
    `localeCompare`; here names are ordered lexicographically by character
    code, which is a total order of the same shape. */
module Names {

  /** Negative, zero or positive as a sorts before, equal to, or after b. */
  function NameCompare(a: string, b: string): (r: int)
    ensures -1 <= r <= 1
    ensures r == 0 <==> a == b
    decreases |a|
  {
    if |a| == 0 && |b| == 0 then 0
    else if |a| == 0 then -1
    else if |b| == 0 then 1
    else if a[0] < b[0] then -1
    else if a[0] > b[0] then 1
    else
      assert a == [a[0]] + a[1..] && b == [b[0]] + b[1..];
      NameCompare(a[1..], b[1..])
  }

  /** Swapping the arguments negates the comparison. */
  lemma {:induction false} NameCompareAntisymmetric(a: string, b: string)
    ensures NameCompare(b, a) == -NameCompare(a, b)
    decreases |a|
  {
    if |a| > 0 && |b| > 0 && a[0] == b[0] {
      NameCompareAntisymmetric(a[1..], b[1..]);
    }
  }

  /** "Not after" is transitive. */
  lemma {:induction false} NameCompareTransitive(a: string, b: string, c: string)
    requires NameCompare(a, b) <= 0 && NameCompare(b, c) <= 0
    ensures NameCompare(a, c) <= 0
    decreases |a|
  {
    if |a| > 0 && |b| > 0 && |c| > 0 && a[0] == b[0] && b[0] == c[0] {
      NameCompareTransitive(a[1..], b[1..], c[1..]);
    }
  }
}
