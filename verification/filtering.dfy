/** The predicate filter shared by `filterChampions` in src/store/utils.ts
    (which tests `class`) and in src/lib/champions.ts (which tests `classId`).
    Both keep, in input order, every champion that equals each given filter
    value; a filter field that is absent is not checked, and an absent filter
    object checks nothing. */
module Filtering {
  import opened Wrappers
  import opened Champions

  /** Which class field a filter's group value is compared with. */
  datatype GroupField = ByClass | ByClassId

  function GroupOf(c: Champion, field: GroupField): string {
    match field
    case ByClass => c.championClass
    case ByClassId => c.classId
  }

  /** A partial filter: each field is either given or absent. */
  datatype Filters = Filters(group: Option<string>, removed: Option<bool>, disabled: Option<bool>)

  const NoFilters := Filters(None, None, None)

  /** The callback of the source's `filter`: the first failing test rejects. */
  predicate Matches(c: Champion, filters: Option<Filters>, field: GroupField) {
    if filters.Some? && filters.value.group.Some? && GroupOf(c, field) != filters.value.group.value then false
    else if filters.Some? && filters.value.removed.Some? && c.removed != filters.value.removed.value then false
    else if filters.Some? && filters.value.disabled.Some? && c.disabled != filters.value.disabled.value then false
    else true
  }

  /** a is obtained from b by deleting elements: it keeps b's relative order. */
  ghost predicate IsSubsequence<T>(a: seq<T>, b: seq<T>)
    decreases |b|
  {
    |a| == 0 || (|b| > 0 && ((a[0] == b[0] && IsSubsequence(a[1..], b[1..])) || IsSubsequence(a, b[1..])))
  }

  function Filter(cs: seq<Champion>, filters: Option<Filters>, field: GroupField): (r: seq<Champion>)
    ensures |r| <= |cs|
    ensures forall c :: c in r <==> c in cs && Matches(c, filters, field)
    ensures forall c :: multiset(r)[c] == if Matches(c, filters, field) then multiset(cs)[c] else 0
    decreases |cs|
  {
    if |cs| == 0 then []
    else
      assert cs == [cs[0]] + cs[1..];
      var rest := Filter(cs[1..], filters, field);
      if Matches(cs[0], filters, field) then [cs[0]] + rest else rest
  }

  /** The filter keeps the input's relative order. */
  lemma {:induction false} FilterIsSubsequence(cs: seq<Champion>, filters: Option<Filters>, field: GroupField)
    ensures IsSubsequence(Filter(cs, filters, field), cs)
    decreases |cs|
  {
    if |cs| > 0 {
      FilterIsSubsequence(cs[1..], filters, field);
      var rest := Filter(cs[1..], filters, field);
      if Matches(cs[0], filters, field) {
        assert ([cs[0]] + rest)[1..] == rest;
      }
    }
  }

  /** With no filter object, or one whose every field is absent, the filter
      returns its input unchanged. */
  lemma {:induction false} FilterWithoutFilters(cs: seq<Champion>, filters: Option<Filters>, field: GroupField)
    requires filters == None || filters == Some(NoFilters)
    ensures Filter(cs, filters, field) == cs
    decreases |cs|
  {
    if |cs| > 0 {
      assert Matches(cs[0], filters, field);
      FilterWithoutFilters(cs[1..], filters, field);
      assert cs == [cs[0]] + cs[1..];
    }
  }
}
