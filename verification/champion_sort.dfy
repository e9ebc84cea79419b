/** `sortChampions` of src/store/utils.ts: a stable sort of a copy of the
    list under a comparator that orders by a fixed class rank and, within a
    class, by name. The comparator raises "Unexpected error" for a class
    outside the rank list; as written it re-tests the first index where it
    means to test the second, so only the first argument's class is checked.
    `AsWritten` models that comparator, `Corrected` the evidently intended one.

    The engine's sort algorithm is not part of the source; the model sorts by
    insertion, which is stable, and which comparisons raise depends on it. */
module ChampionSort {
  import opened Wrappers
  import opened Champions
  import opened Names

  /** The class rank list of the comparator. */
  function ClassOrder(): seq<string> {
    ["Damage", "Flank", "Frontline", "Support"]
  }

  /** `indexOf`: the first position of x in xs, or -1. */
  function IndexOf(xs: seq<string>, x: string): (r: int)
    ensures -1 <= r < |xs|
    ensures r == -1 <==> x !in xs
    ensures 0 <= r ==> xs[r] == x && x !in xs[..r]
    decreases |xs|
  {
    if |xs| == 0 then -1
    else if xs[0] == x then 0
    else
      var r := IndexOf(xs[1..], x);
      assert r >= 0 ==> xs[..r + 1] == [xs[0]] + xs[1..][..r];
      if r == -1 then -1 else r + 1
  }

  predicate KnownClass(c: Champion) {
    c.championClass in ClassOrder()
  }

  predicate AllKnown(cs: seq<Champion>) {
    forall c :: c in cs ==> KnownClass(c)
  }

  /** Every champion of the list has class k. */
  predicate AllOfClass(cs: seq<Champion>, k: string) {
    forall c :: c in cs ==> c.championClass == k
  }

  predicate SameClass(cs: seq<Champion>) {
    |cs| == 0 || AllOfClass(cs, cs[0].championClass)
  }

  /** The position of a champion's class in the rank list, or -1. */
  function Rank(c: Champion): (r: int)
    ensures r == IndexOf(ClassOrder(), c.championClass)
    ensures r == -1 <==> !KnownClass(c)
  {
    var k := c.championClass;
    if k == "Damage" then 0
    else if k == "Flank" then 1
    else if k == "Frontline" then 2
    else if k == "Support" then 3
    else -1
  }

  /** The order the comparator means: class rank first, then name. */
  predicate Le(a: Champion, b: Champion) {
    Rank(a) < Rank(b) || (Rank(a) == Rank(b) && NameCompare(a.name, b.name) <= 0)
  }

  /** Equal sort keys: same class and same name. */
  predicate SameKey(a: Champion, b: Champion) {
    a.championClass == b.championClass && a.name == b.name
  }

  /** Consecutive champions are in order. */
  predicate Sorted(cs: seq<Champion>) {
    forall i :: 0 < i < |cs| ==> Le(cs[i - 1], cs[i])
  }

  /** Which index the second unknown-class test looks at. */
  datatype ClassCheck = AsWritten | Corrected

  /** The comparator: negative, zero or positive, or the error it throws. */
  function Compare(a: Champion, b: Champion, check: ClassCheck): Result<int, Error> {
    if a.championClass == b.championClass then
      Success(NameCompare(a.name, b.name))
    else
      var index1 := Rank(a);
      if index1 == -1 then Failure(UnexpectedError)
      else
        var index2 := Rank(b);
        var retested := if check == AsWritten then index1 else index2;
        if retested == -1 then Failure(UnexpectedError)
        else Success(index1 - index2)
  }

  /** The comparator raises exactly for two different classes of which the
      first is unknown (as written) or either is unknown (corrected). On known
      classes its sign is the class-rank-then-name order. */
  lemma CompareSpec(a: Champion, b: Champion, check: ClassCheck)
    ensures Compare(a, b, check).Failure? <==>
              a.championClass != b.championClass && (!KnownClass(a) || (check == Corrected && !KnownClass(b)))
    ensures KnownClass(a) && KnownClass(b) ==>
              var r := Compare(a, b, check);
              r.Success? && (r.value <= 0 <==> Le(a, b)) && (r.value == 0 <==> SameKey(a, b))
  {
  }

  /** Inserts x before the first element it does not compare greater than. */
  function Insert(x: Champion, ys: seq<Champion>, check: ClassCheck): (r: Result<seq<Champion>, Error>)
    ensures r.Success? ==> multiset(r.value) == multiset(ys) + multiset{x}
    ensures r.Success? && |ys| > 0 ==> r.value[0] == x || r.value[0] == ys[0]
    decreases |ys|
  {
    if |ys| == 0 then Success([x])
    else
      match Compare(x, ys[0], check)
      case Failure(e) => Failure(e)
      case Success(v) =>
        if v <= 0 then Success([x] + ys)
        else
          match Insert(x, ys[1..], check)
          case Failure(e) => Failure(e)
          case Success(rest) =>
            assert ys == [ys[0]] + ys[1..];
            Success([ys[0]] + rest)
  }

  /** Sorts by inserting each element, last first, into the sorted rest. */
  function Sort(xs: seq<Champion>, check: ClassCheck): (r: Result<seq<Champion>, Error>)
    ensures r.Success? ==> multiset(r.value) == multiset(xs)
    decreases |xs|
  {
    if |xs| == 0 then Success([])
    else
      match Sort(xs[1..], check)
      case Failure(e) => Failure(e)
      case Success(sorted) =>
        assert multiset(xs) == multiset(xs[1..]) + multiset{xs[0]} by {
          assert xs == [xs[0]] + xs[1..];
        }
        Insert(xs[0], sorted, check)
  }

  /** `sortChampions` as the source writes it. */
  function SortChampions(xs: seq<Champion>): Result<seq<Champion>, Error> {
    Sort(xs, AsWritten)
  }

  /** `sortChampions` with the second unknown-class test on the second index. */
  function SortChampionsCorrected(xs: seq<Champion>): Result<seq<Champion>, Error> {
    Sort(xs, Corrected)
  }

  /** Le is total on champions of known class. */
  lemma LeTotal(a: Champion, b: Champion)
    requires KnownClass(a) && KnownClass(b)
    ensures Le(a, b) || Le(b, a)
  {
    NameCompareAntisymmetric(a.name, b.name);
  }

  /** Le is transitive. */
  lemma LeTransitive(a: Champion, b: Champion, c: Champion)
    requires Le(a, b) && Le(b, c)
    ensures Le(a, c)
  {
    if Rank(a) == Rank(b) == Rank(c) {
      NameCompareTransitive(a.name, b.name, c.name);
    }
  }

  lemma MultisetMembers(a: seq<Champion>, b: seq<Champion>)
    requires multiset(a) == multiset(b)
    ensures forall c :: c in a <==> c in b
  {
    forall c ensures c in a <==> c in b {
      assert c in a <==> c in multiset(a);
      assert c in b <==> c in multiset(b);
    }
  }

  /** A champion in order with the head of a sorted list extends it. */
  lemma SortedCons(c: Champion, cs: seq<Champion>)
    requires Sorted(cs) && (|cs| > 0 ==> Le(c, cs[0]))
    ensures Sorted([c] + cs)
  {
    var r := [c] + cs;
    forall i | 0 < i < |r| ensures Le(r[i - 1], r[i]) {
      if i > 1 {
        assert r[i - 1] == cs[i - 2] && r[i] == cs[i - 1];
      }
    }
  }

  /** Inserting a known-class champion into a sorted known-class list
      succeeds and keeps the list sorted. */
  lemma {:induction false} InsertSorted(x: Champion, ys: seq<Champion>, check: ClassCheck)
    requires KnownClass(x) && AllKnown(ys) && Sorted(ys)
    ensures Insert(x, ys, check).Success?
    ensures Sorted(Insert(x, ys, check).value)
    decreases |ys|
  {
    if |ys| > 0 {
      assert ys[0] in ys;
      CompareSpec(x, ys[0], check);
      if Compare(x, ys[0], check).value <= 0 {
        SortedCons(x, ys);
      } else {
        assert ys == [ys[0]] + ys[1..];
        assert Sorted(ys[1..]);
        InsertSorted(x, ys[1..], check);
        InsertPastHead(x, ys, check);
        LeTotal(x, ys[0]);
        SortedCons(ys[0], Insert(x, ys[1..], check).value);
      }
    }
  }

  /** With every class in the rank list, the sort succeeds, returns a
      permutation of its input, and orders it by class rank, then name. */
  lemma {:induction false} SortKnownClasses(xs: seq<Champion>, check: ClassCheck)
    requires AllKnown(xs)
    ensures Sort(xs, check).Success?
    ensures Sorted(Sort(xs, check).value)
    ensures multiset(Sort(xs, check).value) == multiset(xs)
    decreases |xs|
  {
    if |xs| > 0 {
      assert xs == [xs[0]] + xs[1..];
      SortKnownClasses(xs[1..], check);
      var sorted := Sort(xs[1..], check).value;
      MultisetMembers(sorted, xs[1..]);
      InsertSorted(xs[0], sorted, check);
    }
  }

  /** Sorted in consecutive pairs means sorted in every pair. */
  lemma {:induction false} SortedPairwise(cs: seq<Champion>, i: int, j: int)
    requires Sorted(cs) && 0 <= i < j < |cs|
    ensures Le(cs[i], cs[j])
    decreases j - i
  {
    if i + 1 < j {
      SortedPairwise(cs, i + 1, j);
      assert Le(cs[i], cs[i + 1]);
      LeTransitive(cs[i], cs[i + 1], cs[j]);
    }
  }

  /** An already sorted known-class list is returned unchanged. */
  lemma {:induction false} SortOfSorted(xs: seq<Champion>, check: ClassCheck)
    requires AllKnown(xs) && Sorted(xs)
    ensures Sort(xs, check) == Success(xs)
    decreases |xs|
  {
    if |xs| > 0 {
      assert xs == [xs[0]] + xs[1..];
      SortOfSorted(xs[1..], check);
      assert Sort(xs, check) == Insert(xs[0], xs[1..], check);
      if |xs| == 1 {
        assert xs[1..] == [];
        assert Insert(xs[0], [], check) == Success([xs[0]]);
        assert [xs[0]] == xs;
      } else {
        assert xs[1..][0] == xs[1];
        assert Le(xs[0], xs[1]);
        assert xs[0] in xs && xs[1] in xs;
        CompareSpec(xs[0], xs[1], check);
        assert Compare(xs[0], xs[1..][0], check).value <= 0;
        assert Insert(xs[0], xs[1..], check) == Success([xs[0]] + xs[1..]);
      }
    }
  }

  /** Sorting twice is sorting once. */
  lemma SortIdempotent(xs: seq<Champion>, check: ClassCheck)
    requires AllKnown(xs)
    ensures Sort(xs, check).Success?
    ensures Sort(Sort(xs, check).value, check) == Sort(xs, check)
  {
    SortKnownClasses(xs, check);
    var r := Sort(xs, check).value;
    MultisetMembers(r, xs);
    SortOfSorted(r, check);
  }

  /** The champions of the list with the same sort key as p, in list order. */
  function Ties(cs: seq<Champion>, p: Champion): seq<Champion>
    decreases |cs|
  {
    if |cs| == 0 then []
    else if SameKey(cs[0], p) then [cs[0]] + Ties(cs[1..], p)
    else Ties(cs[1..], p)
  }

  lemma TiesCons(c: Champion, cs: seq<Champion>, p: Champion)
    ensures Ties([c] + cs, p) == (if SameKey(c, p) then [c] else []) + Ties(cs, p)
  {
    assert ([c] + cs)[1..] == cs;
  }

  /** When x does not compare greater than the head, it goes first. */
  lemma InsertBeforeHead(x: Champion, ys: seq<Champion>, check: ClassCheck)
    requires |ys| > 0
    requires Compare(x, ys[0], check).Success? && Compare(x, ys[0], check).value <= 0
    ensures Insert(x, ys, check) == Success([x] + ys)
  {
  }

  /** When x compares greater than the head, insertion keeps the head and
      inserts into the tail. */
  lemma InsertPastHead(x: Champion, ys: seq<Champion>, check: ClassCheck)
    requires |ys| > 0 && Insert(x, ys, check).Success?
    requires Compare(x, ys[0], check).Success? && Compare(x, ys[0], check).value > 0
    ensures !SameKey(x, ys[0])
    ensures Insert(x, ys[1..], check).Success?
    ensures Insert(x, ys, check).value == [ys[0]] + Insert(x, ys[1..], check).value
  {
  }

  /** Insertion puts x before every champion with its key: within one key,
      x comes first and the others keep their order. */
  lemma {:induction false} InsertTies(x: Champion, ys: seq<Champion>, p: Champion, check: ClassCheck)
    requires Insert(x, ys, check).Success?
    ensures Ties(Insert(x, ys, check).value, p) == (if SameKey(x, p) then [x] else []) + Ties(ys, p)
    decreases |ys|
  {
    if |ys| > 0 {
      var v := Compare(x, ys[0], check).value;
      if v <= 0 {
        InsertBeforeHead(x, ys, check);
        TiesCons(x, ys, p);
      } else {
        InsertPastHead(x, ys, check);
        InsertTies(x, ys[1..], p, check);
        TiesCons(ys[0], Insert(x, ys[1..], check).value, p);
        TiesCons(ys[0], ys[1..], p);
        assert ys == [ys[0]] + ys[1..];
      }
    }
  }

  /** A successful sort of a non-empty list inserts the head into the
      sorted tail. */
  lemma SortUnfold(xs: seq<Champion>, check: ClassCheck)
    requires |xs| > 0 && Sort(xs, check).Success?
    ensures Sort(xs[1..], check).Success?
    ensures Sort(xs, check) == Insert(xs[0], Sort(xs[1..], check).value, check)
  {
  }

  /** The sort is stable: champions with equal keys keep their input order. */
  lemma {:induction false} SortStable(xs: seq<Champion>, p: Champion, check: ClassCheck)
    requires Sort(xs, check).Success?
    ensures Ties(Sort(xs, check).value, p) == Ties(xs, p)
    decreases |xs|
  {
    if |xs| > 0 {
      SortUnfold(xs, check);
      SortStable(xs[1..], p, check);
      InsertTies(xs[0], Sort(xs[1..], check).value, p, check);
    }
  }

  /** Every comparison between champions of one class succeeds, so does a
      sort of a single-class list. */
  lemma {:induction false} SortOneClass(xs: seq<Champion>, k: string, check: ClassCheck)
    requires AllOfClass(xs, k)
    ensures Sort(xs, check).Success?
    decreases |xs|
  {
    if |xs| > 0 {
      assert xs == [xs[0]] + xs[1..];
      SortOneClass(xs[1..], k, check);
      var sorted := Sort(xs[1..], check).value;
      MultisetMembers(sorted, xs[1..]);
      InsertOneClass(xs[0], sorted, k, check);
    }
  }

  lemma {:induction false} InsertOneClass(x: Champion, ys: seq<Champion>, k: string, check: ClassCheck)
    requires x.championClass == k && AllOfClass(ys, k)
    ensures Insert(x, ys, check).Success?
    decreases |ys|
  {
    if |ys| > 0 {
      assert ys[0] in ys;
      InsertOneClass(x, ys[1..], k, check);
    }
  }

  /** An insertion into a non-empty list first compares with its head. */
  lemma InsertComparesHead(x: Champion, ys: seq<Champion>, check: ClassCheck)
    requires |ys| > 0 && Insert(x, ys, check).Success?
    ensures Compare(x, ys[0], check).Success?
  {
  }

  /** A successful corrected sort had every class in the rank list or a
      single class throughout. */
  lemma {:induction false} SortCorrectedSuccess(xs: seq<Champion>)
    requires Sort(xs, Corrected).Success?
    ensures AllKnown(xs) || SameClass(xs)
    decreases |xs|
  {
    if |xs| > 1 {
      var x := xs[0];
      var tail := xs[1..];
      assert xs == [x] + tail;
      assert Sort(tail, Corrected).Success?;
      SortCorrectedSuccess(tail);
      var s := Sort(tail, Corrected).value;
      MultisetMembers(s, tail);
      assert Insert(x, s, Corrected).Success?;
      InsertComparesHead(x, s, Corrected);
      CompareSpec(x, s[0], Corrected);
      var k := s[0].championClass;
      assert s[0] in tail;
      assert AllKnown(tail) || AllOfClass(tail, k);
      if x.championClass == k {
        assert AllKnown(xs) || AllOfClass(xs, k);
      } else {
        assert KnownClass(x) && KnownClass(s[0]);
        assert AllKnown(tail);
        assert AllKnown(xs);
      }
    }
  }

  /** The corrected sort succeeds exactly when every class is in the rank
      list or the whole list has one class. */
  lemma SortCorrectedSucceedsIff(xs: seq<Champion>)
    ensures SortChampionsCorrected(xs).Success? <==> AllKnown(xs) || SameClass(xs)
  {
    if AllKnown(xs) {
      SortKnownClasses(xs, Corrected);
    } else if SameClass(xs) {
      SortOneClass(xs, xs[0].championClass, Corrected);
    } else if Sort(xs, Corrected).Success? {
      SortCorrectedSuccess(xs);
    }
  }

  /** When every class is in the rank list the two comparators never differ,
      so the sort as written and the corrected one agree. */
  lemma {:induction false} SortVariantsAgreeOnKnownClasses(xs: seq<Champion>)
    requires AllKnown(xs)
    ensures SortChampions(xs).Success?
    ensures SortChampions(xs) == SortChampionsCorrected(xs)
    decreases |xs|
  {
    SortKnownClasses(xs, AsWritten);
    SortKnownClasses(xs, Corrected);
    if |xs| > 0 {
      assert xs == [xs[0]] + xs[1..];
      SortVariantsAgreeOnKnownClasses(xs[1..]);
      var sorted := Sort(xs[1..], AsWritten).value;
      MultisetMembers(sorted, xs[1..]);
      InsertVariantsAgree(xs[0], sorted);
    }
  }

  lemma {:induction false} InsertVariantsAgree(x: Champion, ys: seq<Champion>)
    requires KnownClass(x) && AllKnown(ys)
    ensures Insert(x, ys, AsWritten) == Insert(x, ys, Corrected)
    decreases |ys|
  {
    if |ys| > 0 {
      assert ys[0] in ys;
      CompareSpec(x, ys[0], AsWritten);
      CompareSpec(x, ys[0], Corrected);
      InsertVariantsAgree(x, ys[1..]);
    }
  }

  /** The comparator as written lets an unknown class through when it is the
      second argument's: a "Damage" champion against a "Tank" one compares
      as 0 - (-1) = 1, and the sort outcome depends on input order. */
  lemma UnknownSecondClassPassesAsWritten()
    ensures var a := Champion("a", "Ash", "ash.png", "Damage", "damage", false, false);
            var b := Champion("b", "Bo", "bo.png", "Tank", "tank", false, false);
            && Compare(a, b, AsWritten) == Success(1)
            && Compare(a, b, Corrected).Failure?
            && SortChampions([a, b]) == Success([b, a])
            && SortChampions([b, a]).Failure?
            && SortChampionsCorrected([a, b]).Failure?
  {
    var a := Champion("a", "Ash", "ash.png", "Damage", "damage", false, false);
    var b := Champion("b", "Bo", "bo.png", "Tank", "tank", false, false);
    assert IndexOf(ClassOrder(), "Damage") == 0;
    assert "Tank" !in ClassOrder();
    CompareSpec(a, b, Corrected);
    assert Compare(a, b, AsWritten) == Success(1);
    assert Compare(b, a, AsWritten).Failure?;
    assert [a, b][1..] == [b] && [b][1..] == [] && [b, a][1..] == [a] && [a][1..] == [];
    assert Sort([b], AsWritten) == Success([b]);
    assert Sort([a], AsWritten) == Success([a]);
    assert Sort([b], Corrected) == Success([b]);
    assert Insert(a, [], AsWritten) == Success([a]);
    assert [b][0] == b;
    assert Compare(a, [b][0], AsWritten) == Success(1);
    assert Insert(a, [b][1..], AsWritten) == Success([a]);
    assert [[b][0]] + [a] == [b, a];
    assert Insert(a, [b], AsWritten) == Success([b, a]);
    assert Sort([a, b], AsWritten) == Insert(a, [b], AsWritten);
  }
}
