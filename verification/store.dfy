/** The application store: the champion list plus the randomized, previous
    and hovered ids and the modifier-key state, with every action as a
    function from the old state to the new one and every derived value as a
    function of the state.

    Three successive versions of the store exist; `Variant` names them:
    - `Basic`: src/store.ts, shift selection by `classId`, no parity check;
    - `Parity`: src/store.tsx, shift selection by `classId` restricted to the
      hovered champion's `removed` value unless ctrl is held;
    - `Persisted`: src/store/index.tsx, the same rule by `class`, plus the
      persisted flags and pick. */
module Store {
  import opened Wrappers
  import opened Champions
  import opened Filtering
  import opened StoreUtils
  import opened ChampionSort
  import opened Random

  datatype KeyboardState = KeyboardState(ctrl: bool, shift: bool)

  /** A partial keyboard state: only the given keys are written. */
  datatype KeyboardPatch = KeyboardPatch(ctrl: Option<bool>, shift: Option<bool>)

  const NoModifiers := KeyboardState(false, false)

  datatype StoreState = StoreState(
    champions: seq<Champion>,
    randomizedId: Option<string>,
    previousId: Option<string>,
    hoveredId: Option<string>,
    keyboard: KeyboardState)

  datatype Variant = Basic | Parity | Persisted {
    /** The class field the shift selection groups by. */
    function Group(): GroupField {
      if Persisted? then ByClass else ByClassId
    }

    /** Whether the shift selection checks removed-flag parity. */
    predicate ChecksParity() {
      !Basic?
    }
  }

  // ---------------------------------------------------------------------
  // Initial state

  /** Every class of the catalog is in the comparator's rank list. */
  predicate KnownRows(rows: seq<ChampionRow>) {
    forall row :: row in rows ==> row.championClass in ClassOrder()
  }

  function SavedId(s: ChampionState): string {
    s.id
  }

  /** The first saved entry with the id, as `savedChampionState.find`. */
  function FindSavedState(saved: seq<ChampionState>, id: string): (r: Option<ChampionState>)
    ensures r.None? <==> forall i :: 0 <= i < |saved| ==> saved[i].id != id
    ensures r.Some? ==> r.value.id == id
    ensures r.Some? ==> exists i :: 0 <= i < |saved| && saved[i] == r.value
                                    && forall j :: 0 <= j < i ==> saved[j].id != id
  {
    FindFirst(saved, SavedId, id)
  }

  /** `{ ...champion, ...state }`: the saved entry's fields override. */
  function Spread(c: Champion, state: Option<ChampionState>): Champion {
    match state
    case None => c
    case Some(s) => c.(id := s.id, removed := s.removed, disabled := s.disabled)
  }

  /** The flags a champion should have after loading: those of the first
      saved entry with its id, or both clear. */
  predicate FlagsRestored(c: Champion, saved: Option<seq<ChampionState>>) {
    if saved.Some? && FindSavedState(saved.value, c.id).Some? then
      var s := FindSavedState(saved.value, c.id).value;
      c.removed == s.removed && c.disabled == s.disabled
    else
      !c.removed && !c.disabled
  }

  /** The merge of persisted flags onto the champions, in list order. An
      absent saved list leaves the list as it is. */
  function MergeSavedState(cs: seq<Champion>, saved: Option<seq<ChampionState>>): (r: seq<Champion>)
    ensures |r| == |cs|
    ensures forall i :: 0 <= i < |cs| ==> RowOf(r[i]) == RowOf(cs[i])
    ensures forall i :: 0 <= i < |cs| && saved.Some? && FindSavedState(saved.value, cs[i].id).Some? ==>
              r[i].removed == FindSavedState(saved.value, cs[i].id).value.removed
              && r[i].disabled == FindSavedState(saved.value, cs[i].id).value.disabled
    ensures forall i :: 0 <= i < |cs| && (saved.None? || FindSavedState(saved.value, cs[i].id).None?) ==>
              r[i] == cs[i]
  {
    if saved.None? then cs
    else seq(|cs|, i requires 0 <= i < |cs| => Spread(cs[i], FindSavedState(saved.value, cs[i].id)))
  }

  /** `createInitialStoreState`: fresh champions from the catalog, saved
      flags merged on, then sorted; the saved pick is restored and nothing
      else is set. The sort is the corrected one (see ChampionSort). */
  function InitialState(catalog: seq<ChampionRow>, saved: Option<seq<ChampionState>>,
                        savedRandomizedId: Option<string>): (r: Result<StoreState, Error>)
    ensures r.Success? ==> r.value.randomizedId == savedRandomizedId
    ensures r.Success? ==> r.value.previousId.None? && r.value.hoveredId.None?
    ensures r.Success? ==> r.value.keyboard == NoModifiers
    ensures r.Success? ==> |r.value.champions| == |catalog|
    ensures r.Success? ==> forall c :: c in r.value.champions ==> RowOf(c) in catalog && FlagsRestored(c, saved)
    ensures r.Success? ==> forall row :: row in catalog ==> exists c :: c in r.value.champions && RowOf(c) == row
    ensures KnownRows(catalog) ==> r.Success? && Sorted(r.value.champions)
  {
    var merged := MergeSavedState(MakeChampions(catalog), saved);
    MergedCatalog(catalog, saved);
    match SortChampionsCorrected(merged)
    case Failure(e) => Failure(e)
    case Success(champions) =>
      MultisetMembers(champions, merged);
      assert |multiset(champions)| == |multiset(merged)|;
      Success(StoreState(champions, savedRandomizedId, None, None, NoModifiers))
  }

  /** The merged catalog holds each row once, with restored flags, and
      sorts whenever its classes are known. */
  lemma MergedCatalog(catalog: seq<ChampionRow>, saved: Option<seq<ChampionState>>)
    ensures var merged := MergeSavedState(MakeChampions(catalog), saved);
            && (forall c :: c in merged ==> RowOf(c) in catalog && FlagsRestored(c, saved))
            && (forall row :: row in catalog ==> exists c :: c in merged && RowOf(c) == row)
            && (KnownRows(catalog) ==> SortChampionsCorrected(merged).Success?
                                       && Sorted(SortChampionsCorrected(merged).value))
  {
    var merged := MergeSavedState(MakeChampions(catalog), saved);
    forall row | row in catalog ensures exists c :: c in merged && RowOf(c) == row {
      var i :| 0 <= i < |catalog| && catalog[i] == row;
      assert merged[i] in merged;
    }
    if KnownRows(catalog) {
      assert AllKnown(merged);
      SortKnownClasses(merged, Corrected);
    }
  }

  /** The initial state of src/store.ts (catalog order) and of
      src/store.tsx (rows in the order its row sort returns): fresh
      champions, no pick, no hover, no modifier held. */
  function FreshState(rows: seq<ChampionRow>): (r: StoreState)
    ensures |r.champions| == |rows|
    ensures forall i :: 0 <= i < |rows| ==> RowOf(r.champions[i]) == rows[i]
    ensures forall c :: c in r.champions ==> !c.removed && !c.disabled
    ensures r.randomizedId.None? && r.previousId.None? && r.hoveredId.None?
    ensures r.keyboard == NoModifiers
  {
    StoreState(MakeChampions(rows), None, None, None, NoModifiers)
  }

  /** A saved entry whose id matches no champion changes nothing, and an
      empty saved list is the same as none. */
  lemma MergeIgnoresUnknownIds(cs: seq<Champion>, saved: seq<ChampionState>, e: ChampionState)
    requires forall c :: c in cs ==> c.id != e.id
    ensures MergeSavedState(cs, Some([e] + saved)) == MergeSavedState(cs, Some(saved))
    ensures MergeSavedState(cs, Some([])) == cs
  {
    forall i | 0 <= i < |cs|
      ensures FindSavedState([e] + saved, cs[i].id) == FindSavedState(saved, cs[i].id)
    {
      assert cs[i] in cs;
      assert ([e] + saved)[1..] == saved;
    }
  }

  /** In a list without repeated ids, a champion's saved entry is the one
      at its own position. */
  lemma SavedEntryOfUnique(cs: seq<Champion>, i: int)
    requires UniqueIds(cs) && 0 <= i < |cs|
    ensures FindSavedState(SaveChampionState(cs), cs[i].id) == Some(SaveChampionState(cs)[i])
  {
    var saved := SaveChampionState(cs);
    var found := FindSavedState(saved, cs[i].id);
    var k :| 0 <= k < |saved| && saved[k] == found.value && forall j :: 0 <= j < k ==> saved[j].id != cs[i].id;
    assert saved[k].id == cs[k].id;
    assert cs[k].id == cs[i].id;
  }

  /** Saving the flags of a list without repeated ids and merging them back
      onto fresh champions of the same rows gives the list back. */
  lemma PersistenceRoundTrip(cs: seq<Champion>)
    requires UniqueIds(cs)
    ensures MergeSavedState(MakeChampions(RowsOf(cs)), Some(SaveChampionState(cs))) == cs
  {
    var r := MergeSavedState(MakeChampions(RowsOf(cs)), Some(SaveChampionState(cs)));
    forall i | 0 <= i < |cs| ensures r[i] == cs[i] {
      SavedEntryOfUnique(cs, i);
    }
  }

  /** Reloading a sorted, known-class list from its own rows and its saved
      flags restores exactly the list and the saved pick. */
  lemma ReloadRestoresState(cs: seq<Champion>, randomizedId: Option<string>)
    requires UniqueIds(cs) && AllKnown(cs) && Sorted(cs)
    ensures InitialState(RowsOf(cs), Some(SaveChampionState(cs)), randomizedId)
            == Success(StoreState(cs, randomizedId, None, None, NoModifiers))
  {
    PersistenceRoundTrip(cs);
    SortOfSorted(cs, Corrected);
  }

  // ---------------------------------------------------------------------
  // Derived values

  predicate Eligible(c: Champion) {
    !c.removed && !c.disabled
  }

  const PoolFilters := Filters(None, Some(false), Some(false))

  /** `canRandomize`: the pool of eligible champions is not empty. */
  function CanRandomize(cs: seq<Champion>): (r: bool)
    ensures r <==> exists c :: c in cs && Eligible(c)
  {
    var choices := FilterChampions(cs, Some(PoolFilters));
    assert |choices| > 0 ==> choices[0] in choices;
    |choices| > 0
  }

  /** The champion an id resolves to, as the `randomizedChampion` and
      `previousChampion` lookups: none for no id. */
  function ResolveId(cs: seq<Champion>, id: Option<string>): (r: Option<Champion>)
    ensures r.Some? ==> id.Some? && r.value in cs && r.value.id == id.value
    ensures r.None? <==> id.None? || forall c :: c in cs ==> c.id != id.value
  {
    match id
    case None => None
    case Some(i) => FindChampionById(cs, i)
  }

  /** A hover id that is neither absent nor the empty string (both falsy). */
  predicate Hovering(st: StoreState) {
    st.hoveredId.Some? && st.hoveredId.value != ""
  }

  /** The filter the shift selection applies for the hovered champion h. */
  function ShiftFilters(h: Champion, variant: Variant, ctrl: bool): Filters {
    Filters(Some(GroupOf(h, variant.Group())),
            if variant.ChecksParity() && !ctrl then Some(h.removed) else None,
            None)
  }

  /** `selectedChampions`: nothing without a hover, an error for a hover id
      no champion has, the hovered champion alone without shift, and with
      shift the champions of its class (restricted to its removed value
      unless ctrl is held, in the variants that check parity). */
  function Selected(st: StoreState, variant: Variant): (r: Result<seq<Champion>, Error>)
    ensures !Hovering(st) ==> r == Success([])
    ensures Hovering(st) ==>
              (r.Failure? <==> forall i :: 0 <= i < |st.champions| ==> st.champions[i].id != st.hoveredId.value)
    ensures Hovering(st) && r.Success? && !st.keyboard.shift ==>
              r.value == [FindChampionById(st.champions, st.hoveredId.value).value]
    ensures Hovering(st) && r.Success? && st.keyboard.shift ==>
              var h := FindChampionById(st.champions, st.hoveredId.value).value;
              forall c :: c in r.value <==>
                c in st.champions
                && GroupOf(c, variant.Group()) == GroupOf(h, variant.Group())
                && (variant.ChecksParity() && !st.keyboard.ctrl ==> c.removed == h.removed)
  {
    if !Hovering(st) then Success([])
    else
      match FindChampionById(st.champions, st.hoveredId.value)
      case None => Failure(UnexpectedError)
      case Some(h) =>
        if st.keyboard.shift then
          Success(Filter(st.champions, Some(ShiftFilters(h, variant, st.keyboard.ctrl)), variant.Group()))
        else
          Success([h])
  }

  /** The selection keeps the list order, and the hovered champion is part
      of its own selection. */
  lemma SelectionContainsHovered(st: StoreState, variant: Variant)
    requires Hovering(st) && Selected(st, variant).Success?
    ensures FindChampionById(st.champions, st.hoveredId.value).Some?
    ensures FindChampionById(st.champions, st.hoveredId.value).value in Selected(st, variant).value
    ensures IsSubsequence(Selected(st, variant).value, st.champions)
  {
    var h := FindChampionById(st.champions, st.hoveredId.value).value;
    if st.keyboard.shift {
      FilterIsSubsequence(st.champions, Some(ShiftFilters(h, variant, st.keyboard.ctrl)), variant.Group());
    } else {
      var i :| 0 <= i < |st.champions| && st.champions[i] == h;
      SingletonIsSubsequence(st.champions, i);
    }
  }

  lemma {:induction false} SingletonIsSubsequence(cs: seq<Champion>, i: int)
    requires 0 <= i < |cs|
    ensures IsSubsequence([cs[i]], cs)
    decreases i
  {
    if i > 0 {
      SingletonIsSubsequence(cs[1..], i - 1);
    } else {
      assert [cs[i]][1..] == [];
    }
  }

  /** src/store.ts: with shift held the selection is the hovered champion's
      whole `classId` group, whatever the removed flags or ctrl. */
  lemma BasicShiftSelection(st: StoreState)
    requires Hovering(st) && st.keyboard.shift && FindChampionById(st.champions, st.hoveredId.value).Some?
    ensures var h := FindChampionById(st.champions, st.hoveredId.value).value;
            Selected(st, Basic) == Success(FilterChampionsByClassId(st.champions, Some(Filters(Some(h.classId), None, None))))
    ensures Selected(st.(keyboard := st.keyboard.(ctrl := !st.keyboard.ctrl)), Basic) == Selected(st, Basic)
  {
  }

  /** src/store.tsx: with shift and without ctrl every selected champion
      shares the hovered champion's `classId` and `removed` value; with ctrl
      as well the parity check is dropped and it selects as src/store.ts. */
  lemma ParityShiftSelection(st: StoreState)
    requires Hovering(st) && st.keyboard.shift && FindChampionById(st.champions, st.hoveredId.value).Some?
    ensures var h := FindChampionById(st.champions, st.hoveredId.value).value;
            !st.keyboard.ctrl ==>
              forall c :: c in Selected(st, Parity).value ==> c.classId == h.classId && c.removed == h.removed
    ensures st.keyboard.ctrl ==> Selected(st, Parity) == Selected(st, Basic)
  {
  }

  // ---------------------------------------------------------------------
  // Actions

  /** `randomizeChampion`: the pair update. The previous id becomes the old
      current id, and the current id becomes the id of a drawn eligible
      champion, or none when the pool is empty. Nothing else changes. */
  function Randomize(st: StoreState, random: real): (r: StoreState)
    requires 0.0 <= random < 1.0
    ensures r.previousId == st.randomizedId
    ensures r.randomizedId.None? <==> forall c :: c in st.champions ==> !Eligible(c)
    ensures r.randomizedId.Some? ==>
              exists c :: c in st.champions && Eligible(c) && c.id == r.randomizedId.value
    ensures r.(randomizedId := st.randomizedId, previousId := st.previousId) == st
  {
    var choices := FilterChampions(st.champions, Some(PoolFilters));
    var picked := Choose(choices, random);
    var randomizedId := if picked.Some? then Some(picked.value.id) else None;
    st.(previousId := st.randomizedId, randomizedId := randomizedId)
  }

  /** A pick exists exactly when the randomize button is enabled. */
  lemma CanRandomizeIffPick(st: StoreState, random: real)
    requires 0.0 <= random < 1.0
    ensures CanRandomize(st.champions) <==> Randomize(st, random).randomizedId.Some?
  {
  }

  /** On an empty pool randomizing is not a no-op: the pick is cleared and
      the old pick moves to previous. */
  lemma RandomizeEmptyPool(st: StoreState, random: real)
    requires 0.0 <= random < 1.0 && !CanRandomize(st.champions)
    ensures Randomize(st, random).randomizedId.None?
    ensures Randomize(st, random).previousId == st.randomizedId
    ensures st.randomizedId.Some? ==> Randomize(st, random) != st
  {
  }

  /** Two randomizations in a row: previous is the first pick, never
      lagging more than one step. */
  lemma RandomizeTwice(st: StoreState, random1: real, random2: real)
    requires 0.0 <= random1 < 1.0 && 0.0 <= random2 < 1.0
    ensures Randomize(Randomize(st, random1), random2).previousId == Randomize(st, random1).randomizedId
  {
  }

  /** In a list without repeated ids the pick resolves to an eligible
      champion. */
  lemma RandomizedChampionIsEligible(st: StoreState, random: real)
    requires 0.0 <= random < 1.0 && UniqueIds(st.champions)
    requires CanRandomize(st.champions)
    ensures var r := Randomize(st, random);
            ResolveId(r.champions, r.randomizedId).Some? && Eligible(ResolveId(r.champions, r.randomizedId).value)
  {
    var r := Randomize(st, random);
    var c :| c in st.champions && Eligible(c) && c.id == r.randomizedId.value;
    var i :| 0 <= i < |st.champions| && st.champions[i] == c;
    FindUniqueId(st.champions, i);
  }

  /** Which champions a flag setter writes: one id, or one class group. */
  datatype Target = ById(id: string) | ByGroup(field: GroupField, group: string)

  predicate Targets(c: Champion, t: Target) {
    match t
    case ById(id) => c.id == id
    case ByGroup(field, group) => GroupOf(c, field) == group
  }

  /** After r, cs's champions keep their rows and order, the flag is v on
      exactly the targeted ones and unchanged elsewhere, and the other flag
      is unchanged everywhere. */
  predicate OnlyFlagChanged(cs: seq<Champion>, r: seq<Champion>, flag: Flag, t: Target, v: bool) {
    && |r| == |cs|
    && (forall i :: 0 <= i < |cs| ==> RowOf(r[i]) == RowOf(cs[i]))
    && (forall i :: 0 <= i < |cs| ==> FlagOf(r[i], flag) == if Targets(cs[i], t) then v else FlagOf(cs[i], flag))
    && (forall i :: 0 <= i < |cs| ==> FlagOf(r[i], flag.Other()) == FlagOf(cs[i], flag.Other()))
  }

  /** The store's path update `("champions", predicate, field, value)`. */
  function SetFlag(cs: seq<Champion>, t: Target, flag: Flag, v: bool): (r: seq<Champion>)
    ensures OnlyFlagChanged(cs, r, flag, t, v)
  {
    seq(|cs|, i requires 0 <= i < |cs| => if Targets(cs[i], t) then WithFlag(cs[i], flag, v) else cs[i])
  }

  /** A flag update keeps the sort order, the known classes and the ids. */
  lemma SetFlagKeepsOrder(cs: seq<Champion>, t: Target, flag: Flag, v: bool)
    requires Sorted(cs)
    ensures Sorted(SetFlag(cs, t, flag, v))
    ensures AllKnown(cs) ==> AllKnown(SetFlag(cs, t, flag, v))
    ensures UniqueIds(cs) ==> UniqueIds(SetFlag(cs, t, flag, v))
  {
    var r := SetFlag(cs, t, flag, v);
    assert forall i :: 0 <= i < |cs| ==>
      r[i].championClass == cs[i].championClass && r[i].name == cs[i].name && r[i].id == cs[i].id;
    if AllKnown(cs) {
      forall c | c in r ensures KnownClass(c) {
        var i :| 0 <= i < |r| && r[i] == c;
        assert cs[i] in cs;
      }
    }
    assert forall i :: 0 < i < |r| ==> Le(r[i - 1], r[i]) by {
      forall i | 0 < i < |r| ensures Le(r[i - 1], r[i]) {
        assert Le(cs[i - 1], cs[i]);
      }
    }
  }

  /** The state with its champion list replaced and nothing else changed. */
  function WithChampions(st: StoreState, cs: seq<Champion>): (r: StoreState)
    ensures r.champions == cs && r.(champions := st.champions) == st
  {
    st.(champions := cs)
  }

  /** `shiftChampionById`: `removed := v` on the champions with the id. */
  function ShiftChampionById(st: StoreState, id: string, v: bool): (r: StoreState)
    ensures OnlyFlagChanged(st.champions, r.champions, RemovedFlag, ById(id), v)
    ensures r.(champions := st.champions) == st
  {
    WithChampions(st, SetFlag(st.champions, ById(id), RemovedFlag, v))
  }

  /** `shiftChampionsByClass`: `removed := v` on the champions of the class. */
  function ShiftChampionsByClass(st: StoreState, championClass: string, v: bool): (r: StoreState)
    ensures OnlyFlagChanged(st.champions, r.champions, RemovedFlag, ByGroup(ByClass, championClass), v)
    ensures r.(champions := st.champions) == st
  {
    WithChampions(st, SetFlag(st.champions, ByGroup(ByClass, championClass), RemovedFlag, v))
  }

  /** `toggleChampionById`: `disabled := v` on the champions with the id. */
  function ToggleChampionById(st: StoreState, id: string, v: bool): (r: StoreState)
    ensures OnlyFlagChanged(st.champions, r.champions, DisabledFlag, ById(id), v)
    ensures r.(champions := st.champions) == st
  {
    WithChampions(st, SetFlag(st.champions, ById(id), DisabledFlag, v))
  }

  /** `toggleChampionsByClass`: `disabled := v` on the champions of the class. */
  function ToggleChampionsByClass(st: StoreState, championClass: string, v: bool): (r: StoreState)
    ensures OnlyFlagChanged(st.champions, r.champions, DisabledFlag, ByGroup(ByClass, championClass), v)
    ensures r.(champions := st.champions) == st
  {
    WithChampions(st, SetFlag(st.champions, ByGroup(ByClass, championClass), DisabledFlag, v))
  }

  /** `shiftChampionsByClassId` of src/store.tsx. */
  function ShiftChampionsByClassId(st: StoreState, classId: string, v: bool): (r: StoreState)
    ensures OnlyFlagChanged(st.champions, r.champions, RemovedFlag, ByGroup(ByClassId, classId), v)
    ensures r.(champions := st.champions) == st
  {
    WithChampions(st, SetFlag(st.champions, ByGroup(ByClassId, classId), RemovedFlag, v))
  }

  /** `toggleChampionsByClassId` of src/store.tsx. */
  function ToggleChampionsByClassId(st: StoreState, classId: string, v: bool): (r: StoreState)
    ensures OnlyFlagChanged(st.champions, r.champions, DisabledFlag, ByGroup(ByClassId, classId), v)
    ensures r.(champions := st.champions) == st
  {
    WithChampions(st, SetFlag(st.champions, ByGroup(ByClassId, classId), DisabledFlag, v))
  }

  /** A champion removed by id drops out of the pool list
      `filterChampions({removed: false})`; every other champion's pool
      membership is unchanged. */
  lemma RemovedByIdLeavesPool(st: StoreState, id: string)
    ensures var after := ShiftChampionById(st, id, true).champions;
            var pool := Some(Filters(None, Some(false), None));
            forall i :: 0 <= i < |after| ==>
              (after[i] in FilterChampions(after, pool) <==> after[i].id != id && !st.champions[i].removed)
  {
  }

  /** `updateHoveredChampion`: only the hover id changes. */
  function UpdateHoveredChampion(st: StoreState, id: Option<string>): (r: StoreState)
    ensures r.hoveredId == id
    ensures r.(hoveredId := st.hoveredId) == st
  {
    st.(hoveredId := id)
  }

  /** `setSelectionSourceChampionId` of src/store.ts. */
  function SetSelectionSource(st: StoreState, id: string): (r: StoreState)
    ensures r.hoveredId == Some(id)
    ensures r.(hoveredId := st.hoveredId) == st
  {
    UpdateHoveredChampion(st, Some(id))
  }

  /** `clearSelectionSource` of src/store.ts: the selection becomes empty. */
  function ClearSelectionSource(st: StoreState): (r: StoreState)
    ensures r.hoveredId.None?
    ensures r.(hoveredId := st.hoveredId) == st
    ensures forall v :: Selected(r, v) == Success([])
  {
    UpdateHoveredChampion(st, None)
  }

  /** The shallow merge of a keyboard patch: only the given keys change. */
  function MergeKeyboard(kb: KeyboardState, patch: KeyboardPatch): (r: KeyboardState)
    ensures patch.ctrl.Some? ==> r.ctrl == patch.ctrl.value
    ensures patch.ctrl.None? ==> r.ctrl == kb.ctrl
    ensures patch.shift.Some? ==> r.shift == patch.shift.value
    ensures patch.shift.None? ==> r.shift == kb.shift
  {
    KeyboardState(patch.ctrl.GetOr(kb.ctrl), patch.shift.GetOr(kb.shift))
  }

  /** Merging the same patch twice is merging it once, and the empty patch
      changes nothing. */
  lemma MergeKeyboardIdempotent(kb: KeyboardState, patch: KeyboardPatch)
    ensures MergeKeyboard(MergeKeyboard(kb, patch), patch) == MergeKeyboard(kb, patch)
    ensures MergeKeyboard(kb, KeyboardPatch(None, None)) == kb
  {
  }

  /** `updateKeyboardState` (`setKeyboardState` in src/store.ts). */
  function UpdateKeyboardState(st: StoreState, patch: KeyboardPatch): (r: StoreState)
    ensures r.keyboard == MergeKeyboard(st.keyboard, patch)
    ensures r.(keyboard := st.keyboard) == st
  {
    st.(keyboard := MergeKeyboard(st.keyboard, patch))
  }

  /** `champions(filters)` of src/store.ts: the `classId` filter applied to
      the full list. */
  function ChampionsView(st: StoreState, filters: Option<Filters>): (r: seq<Champion>)
    ensures IsSubsequence(r, st.champions)
    ensures forall c :: c in r <==> c in st.champions && Matches(c, filters, ByClassId)
    ensures filters.None? ==> r == st.champions
  {
    FilterIsSubsequence(st.champions, filters, ByClassId);
    FilterWithoutFilters(st.champions, None, ByClassId);
    FilterChampionsByClassId(st.champions, filters)
  }
}
