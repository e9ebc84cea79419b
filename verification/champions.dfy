/** The records of the randomizer: catalog rows, champions (a row plus the two
    mutable flags), the persisted flag projection, and the single error the
    source raises. */
module Champions {

  /** One row of the static catalog. The record keeps both a display class
      (`class`) and a class identifier (`classId`) because different versions
      of the code read different ones: the latest store groups by `class`,
      the earlier stores and the click handler by `classId`. */
  datatype ChampionRow = ChampionRow(
    id: string,
    name: string,
    imagePath: string,
    championClass: string,
    classId: string)

  /** A catalog row together with the flags `removed` (out of the pool) and
      `disabled` (in the pool but never drawn). */
  datatype Champion = Champion(
    id: string,
    name: string,
    imagePath: string,
    championClass: string,
    classId: string,
    removed: bool,
    disabled: bool)

  /** The persisted projection of a champion: its id and both flags. */
  datatype ChampionState = ChampionState(id: string, removed: bool, disabled: bool)

  /** The only error the core raises ("Unexpected error"). */
  datatype Error = UnexpectedError

  /** The catalog fields of a champion, forgetting both flags. */
  function RowOf(c: Champion): ChampionRow {
    ChampionRow(c.id, c.name, c.imagePath, c.championClass, c.classId)
  }

  /** A fresh champion: every row field copied, both flags cleared. */
  function MakeChampion(row: ChampionRow): (c: Champion)
    ensures RowOf(c) == row
    ensures !c.removed && !c.disabled
  {
    Champion(row.id, row.name, row.imagePath, row.championClass, row.classId, false, false)
  }

  /** A champion is fully determined by its row and its two flags, so a
      champion with both flags clear is the fresh champion of its row. */
  lemma MakeChampionOfRow(c: Champion)
    ensures MakeChampion(RowOf(c)) == c <==> !c.removed && !c.disabled
  {
  }

  /** Every catalog row turned into a fresh champion, in catalog order. */
  function MakeChampions(rows: seq<ChampionRow>): (cs: seq<Champion>)
    ensures |cs| == |rows|
    ensures forall i :: 0 <= i < |rows| ==> RowOf(cs[i]) == rows[i]
    ensures forall i :: 0 <= i < |rows| ==> !cs[i].removed && !cs[i].disabled
  {
    seq(|rows|, i requires 0 <= i < |rows| => MakeChampion(rows[i]))
  }

  /** The catalog rows of a champion list, in list order. */
  function RowsOf(cs: seq<Champion>): (rows: seq<ChampionRow>)
    ensures |rows| == |cs|
    ensures forall i :: 0 <= i < |cs| ==> rows[i] == RowOf(cs[i])
  {
    seq(|cs|, i requires 0 <= i < |cs| => RowOf(cs[i]))
  }

  /** No two champions of the list share an id. */
  predicate UniqueIds(cs: seq<Champion>) {
    forall i, j :: 0 <= i < j < |cs| ==> cs[i].id != cs[j].id
  }

  /** The two mutable flags of a champion. */
  datatype Flag = RemovedFlag | DisabledFlag {
    function Other(): Flag {
      if RemovedFlag? then DisabledFlag else RemovedFlag
    }
  }

  function FlagOf(c: Champion, flag: Flag): bool {
    match flag
    case RemovedFlag => c.removed
    case DisabledFlag => c.disabled
  }

  /** The champion with one flag set to v. */
  function WithFlag(c: Champion, flag: Flag, v: bool): (r: Champion)
    ensures RowOf(r) == RowOf(c)
    ensures FlagOf(r, flag) == v
    ensures FlagOf(r, flag.Other()) == FlagOf(c, flag.Other())
  {
    match flag
    case RemovedFlag => c.(removed := v)
    case DisabledFlag => c.(disabled := v)
  }
}
