/** The list utilities of src/store/utils.ts and src/lib/champions.ts, apart
    from the sort (module ChampionSort) and the local-storage calls. */
module StoreUtils {
  import opened Wrappers
  import opened Champions
  import opened Filtering

  /** `filterChampions` of src/store/utils.ts: the group filter is the
      champion's `class`. */
  function FilterChampions(cs: seq<Champion>, filters: Option<Filters>): (r: seq<Champion>)
    ensures |r| <= |cs|
    ensures forall c :: c in r ==> c in cs
    ensures forall c :: c in r && filters.Some? && filters.value.group.Some? ==> c.championClass == filters.value.group.value
    ensures forall c :: c in r && filters.Some? && filters.value.removed.Some? ==> c.removed == filters.value.removed.value
    ensures forall c :: c in r && filters.Some? && filters.value.disabled.Some? ==> c.disabled == filters.value.disabled.value
    ensures forall c :: c in cs
                        && (filters.Some? && filters.value.group.Some? ==> c.championClass == filters.value.group.value)
                        && (filters.Some? && filters.value.removed.Some? ==> c.removed == filters.value.removed.value)
                        && (filters.Some? && filters.value.disabled.Some? ==> c.disabled == filters.value.disabled.value)
                        ==> c in r
  {
    Filter(cs, filters, ByClass)
  }

  /** `filterChampions` of src/lib/champions.ts: the group filter is the
      champion's `classId`. */
  function FilterChampionsByClassId(cs: seq<Champion>, filters: Option<Filters>): (r: seq<Champion>)
    ensures |r| <= |cs|
    ensures forall c :: c in r ==> c in cs
    ensures forall c :: c in r && filters.Some? && filters.value.group.Some? ==> c.classId == filters.value.group.value
    ensures forall c :: c in r && filters.Some? && filters.value.removed.Some? ==> c.removed == filters.value.removed.value
    ensures forall c :: c in r && filters.Some? && filters.value.disabled.Some? ==> c.disabled == filters.value.disabled.value
    ensures forall c :: c in cs
                        && (filters.Some? && filters.value.group.Some? ==> c.classId == filters.value.group.value)
                        && (filters.Some? && filters.value.removed.Some? ==> c.removed == filters.value.removed.value)
                        && (filters.Some? && filters.value.disabled.Some? ==> c.disabled == filters.value.disabled.value)
                        ==> c in r
  {
    Filter(cs, filters, ByClassId)
  }

  /** `Array.find` by id: the first element whose id is `id`, or none. */
  function FindFirst<T>(xs: seq<T>, idOf: T -> string, id: string): (r: Option<T>)
    ensures r.None? <==> forall i :: 0 <= i < |xs| ==> idOf(xs[i]) != id
    ensures r.Some? ==> exists i :: 0 <= i < |xs| && xs[i] == r.value && idOf(xs[i]) == id
                                    && forall j :: 0 <= j < i ==> idOf(xs[j]) != id
    decreases |xs|
  {
    if |xs| == 0 then None
    else if idOf(xs[0]) == id then Some(xs[0])
    else
      var r := FindFirst(xs[1..], idOf, id);
      assert r.Some? ==> exists i :: 0 <= i < |xs[1..]| && xs[1..][i] == r.value && idOf(xs[1..][i]) == id
                                     && forall j :: 0 <= j < i ==> idOf(xs[1..][j]) != id;
      assert r.Some? ==> exists i :: 1 <= i < |xs| && xs[i] == r.value && idOf(xs[i]) == id
                                     && forall j :: 0 <= j < i ==> idOf(xs[j]) != id;
      r
  }

  function ChampionId(c: Champion): string {
    c.id
  }

  /** `findChampionById`: the first champion with the id, or none. */
  function FindChampionById(cs: seq<Champion>, id: string): (r: Option<Champion>)
    ensures r.None? <==> forall i :: 0 <= i < |cs| ==> cs[i].id != id
    ensures r.Some? ==> exists i :: 0 <= i < |cs| && cs[i] == r.value && cs[i].id == id
                                    && forall j :: 0 <= j < i ==> cs[j].id != id
  {
    FindFirst(cs, ChampionId, id)
  }

  /** In a list without repeated ids, the champion at position i is the one
      found by its id. */
  lemma FindUniqueId(cs: seq<Champion>, i: int)
    requires UniqueIds(cs) && 0 <= i < |cs|
    ensures FindChampionById(cs, cs[i].id) == Some(cs[i])
  {
  }

  /** The persisted projection of `saveChampionState`, one entry per
      champion in list order (the write to local storage is not modelled). */
  function SaveChampionState(cs: seq<Champion>): (r: seq<ChampionState>)
    ensures |r| == |cs|
    ensures forall i :: 0 <= i < |cs| ==> r[i].id == cs[i].id
    ensures forall i :: 0 <= i < |cs| ==> r[i].removed == cs[i].removed && r[i].disabled == cs[i].disabled
  {
    seq(|cs|, i requires 0 <= i < |cs| => ChampionState(cs[i].id, cs[i].removed, cs[i].disabled))
  }
}
