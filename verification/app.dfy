/** The event handlers of src/App.tsx as functions on the store state: the
    key-down, key-up and visibility handlers that keep the modifier keys,
    and the mouse handlers of a champion button. The click handler calls
    the `classId` setters of src/store.tsx. */
module App {
  import opened Wrappers
  import opened Champions
  import opened Filtering
  import opened StoreUtils
  import opened Store

  const CtrlDown := KeyboardPatch(Some(true), None)
  const ShiftDown := KeyboardPatch(None, Some(true))
  const CtrlUp := KeyboardPatch(Some(false), None)
  const ShiftUp := KeyboardPatch(None, Some(false))

  /** `handleKeyDownEvent`: "Control" and "Shift" mark their key held. */
  function OnKeyDown(st: StoreState, key: string): (r: StoreState)
    ensures r.(keyboard := st.keyboard) == st
    ensures key == "Control" ==> r.keyboard == st.keyboard.(ctrl := true)
    ensures key == "Shift" ==> r.keyboard == st.keyboard.(shift := true)
    ensures key != "Control" && key != "Shift" ==> r == st
  {
    if key == "Control" then UpdateKeyboardState(st, CtrlDown)
    else if key == "Shift" then UpdateKeyboardState(st, ShiftDown)
    else st
  }

  /** `handleKeyUpEvent`: "Control" and "Shift" mark their key released. */
  function OnKeyUp(st: StoreState, key: string): (r: StoreState)
    ensures r.(keyboard := st.keyboard) == st
    ensures key == "Control" ==> r.keyboard == st.keyboard.(ctrl := false)
    ensures key == "Shift" ==> r.keyboard == st.keyboard.(shift := false)
    ensures key != "Control" && key != "Shift" ==> r == st
  {
    if key == "Control" then UpdateKeyboardState(st, CtrlUp)
    else if key == "Shift" then UpdateKeyboardState(st, ShiftUp)
    else st
  }

  /** `handleVisibilityChange`: hiding the page releases both keys. */
  function OnVisibilityChange(st: StoreState, hidden: bool): (r: StoreState)
    ensures hidden ==> r == st.(keyboard := NoModifiers)
    ensures !hidden ==> r == st
  {
    if hidden then UpdateKeyboardState(st, KeyboardPatch(Some(false), Some(false))) else st
  }

  /** The page events the modifier state listens to. */
  datatype PageEvent = KeyDown(key: string) | KeyUp(key: string) | VisibilityChange(hidden: bool)

  function Step(st: StoreState, e: PageEvent): StoreState {
    match e
    case KeyDown(key) => OnKeyDown(st, key)
    case KeyUp(key) => OnKeyUp(st, key)
    case VisibilityChange(hidden) => OnVisibilityChange(st, hidden)
  }

  /** The state after handling the events in order. */
  function Run(st: StoreState, events: seq<PageEvent>): StoreState
    decreases |events|
  {
    if |events| == 0 then st else Run(Step(st, events[0]), events[1..])
  }

  datatype Modifier = Ctrl | Shift {
    function KeyName(): string {
      if Ctrl? then "Control" else "Shift"
    }

    function HeldIn(kb: KeyboardState): bool {
      if Ctrl? then kb.ctrl else kb.shift
    }
  }

  /** Whether a modifier is held after the events, read from the last event
      that decides it: its key-down (held), its key-up or the page being
      hidden (released); with no such event it keeps its initial value. */
  function HeldAfter(initial: bool, m: Modifier, events: seq<PageEvent>): bool
    decreases |events|
  {
    if |events| == 0 then initial
    else
      var earlier := events[..|events| - 1];
      match events[|events| - 1]
      case KeyDown(key) => if key == m.KeyName() then true else HeldAfter(initial, m, earlier)
      case KeyUp(key) => if key == m.KeyName() then false else HeldAfter(initial, m, earlier)
      case VisibilityChange(hidden) => if hidden then false else HeldAfter(initial, m, earlier)
  }

  lemma {:induction false} RunAppend(st: StoreState, events: seq<PageEvent>, e: PageEvent)
    ensures Run(st, events + [e]) == Step(Run(st, events), e)
    decreases |events|
  {
    if |events| > 0 {
      assert (events + [e])[1..] == events[1..] + [e];
      RunAppend(Step(st, events[0]), events[1..], e);
    }
  }

  /** The handlers keep each modifier equal to what its last deciding event
      says, and touch nothing but the keyboard state. */
  lemma {:induction false} ModifiersFollowLastEvent(st: StoreState, events: seq<PageEvent>, m: Modifier)
    ensures m.HeldIn(Run(st, events).keyboard) == HeldAfter(m.HeldIn(st.keyboard), m, events)
    ensures Run(st, events).(keyboard := st.keyboard) == st
    decreases |events|
  {
    if |events| > 0 {
      var earlier := events[..|events| - 1];
      var e := events[|events| - 1];
      assert events == earlier + [e];
      ModifiersFollowLastEvent(st, earlier, m);
      RunAppend(st, earlier, e);
    }
  }

  /** The store update one click on a champion asks for: which flag, on
      which champions, to which value. */
  datatype ClickAction = ClickAction(flag: Flag, target: Target, value: bool)

  /** The dispatch table of `onMouseDown`. */
  function MouseDownAction(kb: KeyboardState, button: int, clicked: Champion): (r: Option<ClickAction>)
    ensures r.None? <==> button != 0
    ensures button == 0 && kb.ctrl && kb.shift ==>
              r == Some(ClickAction(DisabledFlag, ByGroup(ByClassId, clicked.classId), !clicked.disabled))
    ensures button == 0 && kb.ctrl && !kb.shift ==>
              r == Some(ClickAction(DisabledFlag, ById(clicked.id), !clicked.disabled))
    ensures button == 0 && !kb.ctrl && kb.shift ==>
              r == Some(ClickAction(RemovedFlag, ByGroup(ByClassId, clicked.classId), !clicked.removed))
    ensures button == 0 && !kb.ctrl && !kb.shift ==>
              r == Some(ClickAction(RemovedFlag, ById(clicked.id), !clicked.removed))
    ensures r.Some? ==> r.value.value == !FlagOf(clicked, r.value.flag)
  {
    if button != 0 then None
    else if kb.ctrl then
      if kb.shift then Some(ClickAction(DisabledFlag, ByGroup(ByClassId, clicked.classId), !clicked.disabled))
      else Some(ClickAction(DisabledFlag, ById(clicked.id), !clicked.disabled))
    else
      if kb.shift then Some(ClickAction(RemovedFlag, ByGroup(ByClassId, clicked.classId), !clicked.removed))
      else Some(ClickAction(RemovedFlag, ById(clicked.id), !clicked.removed))
  }

  /** Runs a click action through the matching store setter. */
  function ApplyClick(st: StoreState, a: ClickAction): (r: StoreState)
    ensures OnlyFlagChanged(st.champions, r.champions, a.flag, a.target, a.value)
    ensures r.(champions := st.champions) == st
  {
    match (a.flag, a.target)
    case (RemovedFlag, ById(id)) => ShiftChampionById(st, id, a.value)
    case (RemovedFlag, ByGroup(ByClassId, g)) => ShiftChampionsByClassId(st, g, a.value)
    case (RemovedFlag, ByGroup(ByClass, g)) => ShiftChampionsByClass(st, g, a.value)
    case (DisabledFlag, ById(id)) => ToggleChampionById(st, id, a.value)
    case (DisabledFlag, ByGroup(ByClassId, g)) => ToggleChampionsByClassId(st, g, a.value)
    case (DisabledFlag, ByGroup(ByClass, g)) => ToggleChampionsByClass(st, g, a.value)
  }

  /** `onMouseDown` on the button of the clicked champion. */
  function OnMouseDown(st: StoreState, button: int, clicked: Champion): (r: StoreState)
    ensures button != 0 ==> r == st
    ensures r.(champions := st.champions) == st
    ensures button == 0 ==>
              var a := MouseDownAction(st.keyboard, button, clicked).value;
              OnlyFlagChanged(st.champions, r.champions, a.flag, a.target, a.value)
  {
    match MouseDownAction(st.keyboard, button, clicked)
    case None => st
    case Some(a) => ApplyClick(st, a)
  }

  /** A class-wide click writes one value, the negation of the clicked
      champion's, to every champion of its class: it does not flip each
      member on its own. */
  lemma ClassClickWritesOneValue(st: StoreState, clicked: Champion)
    requires st.keyboard.shift
    ensures var flag := if st.keyboard.ctrl then DisabledFlag else RemovedFlag;
            var r := OnMouseDown(st, 0, clicked);
            forall c :: c in r.champions && c.classId == clicked.classId ==> FlagOf(c, flag) == !FlagOf(clicked, flag)
  {
    var flag := if st.keyboard.ctrl then DisabledFlag else RemovedFlag;
    var r := OnMouseDown(st, 0, clicked);
    forall c | c in r.champions && c.classId == clicked.classId
      ensures FlagOf(c, flag) == !FlagOf(clicked, flag)
    {
      var i :| 0 <= i < |r.champions| && r.champions[i] == c;
      assert RowOf(r.champions[i]) == RowOf(st.champions[i]);
    }
  }

  /** Two champions with the same row and flags are the same champion. */
  lemma ChampionExt(a: Champion, b: Champion)
    requires RowOf(a) == RowOf(b) && a.removed == b.removed && a.disabled == b.disabled
    ensures a == b
  {
  }

  /** In a list without repeated ids, clicking a champion twice by id (the
      second click seeing the updated champion) restores the list. */
  lemma ClickByIdTwiceRestores(st: StoreState, i: int)
    requires UniqueIds(st.champions) && 0 <= i < |st.champions| && !st.keyboard.shift
    ensures var once := OnMouseDown(st, 0, st.champions[i]);
            OnMouseDown(once, 0, once.champions[i]) == st
  {
    var once := OnMouseDown(st, 0, st.champions[i]);
    var twice := OnMouseDown(once, 0, once.champions[i]);
    assert once.keyboard == st.keyboard;
    assert |twice.champions| == |st.champions|;
    forall j | 0 <= j < |st.champions| ensures twice.champions[j] == st.champions[j] {
      assert RowOf(once.champions[j]) == RowOf(st.champions[j]);
      assert RowOf(twice.champions[j]) == RowOf(once.champions[j]);
      ChampionExt(twice.champions[j], st.champions[j]);
    }
  }

  /** `onMouseEnter`: the champion becomes the selection source. */
  function OnMouseEnter(st: StoreState, c: Champion): (r: StoreState)
    ensures r == st.(hoveredId := Some(c.id))
  {
    SetSelectionSource(st, c.id)
  }

  /** `onMouseLeave`: the selection source is cleared. */
  function OnMouseLeave(st: StoreState): (r: StoreState)
    ensures r == st.(hoveredId := None)
  {
    ClearSelectionSource(st)
  }

  /** Entering a listed champion (with a non-empty id, in a list without
      repeated ids) selects it, and leaving selects nothing. */
  lemma EnterSelectsChampion(st: StoreState, i: int, v: Variant)
    requires UniqueIds(st.champions) && 0 <= i < |st.champions| && st.champions[i].id != ""
    ensures Selected(OnMouseEnter(st, st.champions[i]), v).Success?
    ensures st.champions[i] in Selected(OnMouseEnter(st, st.champions[i]), v).value
    ensures Selected(OnMouseLeave(OnMouseEnter(st, st.champions[i])), v) == Success([])
  {
    var entered := OnMouseEnter(st, st.champions[i]);
    FindUniqueId(st.champions, i);
    SelectionContainsHovered(entered, v);
  }
}
