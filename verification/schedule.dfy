/** The schedule held by the back end: one row per date with a label and a
    state for each room, the nurse table the labels are resolved against, and
    the counter changes an assignment implies. */
module Schedule {
  import opened Wrappers
  import opened Text
  import opened Rooms
  import opened Labels
  import opened Counters

  /** A calendar day, as a day number. */
  type Date = int

  /** The outcome of a route: a body, or an HTTP error status. */
  datatype Reply<T> = Ok(body: T) | Fail(code: int)

  /** A row of `emploisDuTemps`: the label written in each room's cell and each
      room's state column. A room missing from `cells` has a NULL cell; a room
      missing from `states` has a NULL state, which reads as open. */
  datatype DayRow = DayRow(cells: map<Room, string>, states: map<Room, RoomState>)

  /** The row inserted for a date that has none: every cell and state NULL. */
  const EmptyRow: DayRow := DayRow(map[], map[])

  /** The cell of room `r`, `None` for NULL. */
  function Cell(row: DayRow, r: Room): Option<string> {
    if r in row.cells then Some(row.cells[r]) else None
  }

  /** Python truthiness of a cell: neither NULL nor the empty string. */
  predicate Truthy(v: Option<string>) {
    v.Some? && v.value != ""
  }

  predicate Occupied(row: DayRow, r: Room) {
    Truthy(Cell(row, r))
  }

  /** The state of room `r`; NULL reads as open. */
  function StateOf(row: DayRow, r: Room): RoomState {
    if r in row.states then row.states[r] else Open
  }

  /** Closed and unused rooms take no nurse. */
  predicate Unavailable(st: RoomState) {
    st == Close || st == Unuse
  }

  /** The row of `date`, or the empty row that would be inserted for it. */
  function RowOrEmpty(rows: map<Date, DayRow>, date: Date): DayRow {
    if date in rows then rows[date] else EmptyRow
  }

  /** `UPDATE emploisDuTemps SET <room> = ?`: writes `v` (NULL for `None`) into one cell. */
  function SetCell(row: DayRow, r: Room, v: Option<string>): (row': DayRow)
    ensures Cell(row', r) == v
    ensures forall x :: x != r ==> Cell(row', x) == Cell(row, x)
    ensures row'.states == row.states
  {
    match v
    case None => row.(cells := row.cells - {r})
    case Some(s) => row.(cells := row.cells[r := s])
  }

  /** `UPDATE emploisDuTemps SET <room>_state = ?`: writes one state column. */
  function SetState(row: DayRow, r: Room, st: RoomState): (row': DayRow)
    ensures StateOf(row', r) == st
    ensures forall x :: x != r ==> StateOf(row', x) == StateOf(row, x)
    ensures row'.cells == row.cells
  {
    row.(states := row.states[r := st])
  }

  /** A row of `listeInfirmier`. */
  datatype Nurse = Nurse(id: int, nom: string, prenom: string, status: string)

  /** The label the back end writes for a nurse (`f"{prenom} {nom} - {status}"`). */
  function NurseLabel(n: Nurse): (s: string)
    ensures s != ""
  {
    assert FormatLabel(n.prenom, n.nom, n.status)[|n.prenom|] == ' ';
    FormatLabel(n.prenom, n.nom, n.status)
  }

  /** The `WHERE prenom = ? AND nom = ? [AND status = ?]` filter; without a
      status only the names are compared. */
  predicate Matches(n: Nurse, prenom: string, nom: string, status: Option<string>) {
    n.prenom == prenom && n.nom == nom && (status.None? || n.status == status.value)
  }

  /** `SELECT id ... LIMIT 1`: the id of the first matching nurse in table order. */
  function FirstMatch(nurses: seq<Nurse>, prenom: string, nom: string, status: Option<string>): (r: Option<int>)
    ensures r.None? <==> forall k :: 0 <= k < |nurses| ==> !Matches(nurses[k], prenom, nom, status)
    ensures r.Some? ==> exists k :: 0 <= k < |nurses| && Matches(nurses[k], prenom, nom, status) && nurses[k].id == r.value
  {
    if nurses == [] then None
    else if Matches(nurses[0], prenom, nom, status) then Some(nurses[0].id)
    else FirstMatch(nurses[1..], prenom, nom, status)
  }

  /** The first matching nurse is the one found. */
  lemma {:induction false} FirstMatchAt(nurses: seq<Nurse>, k: int, prenom: string, nom: string, status: Option<string>)
    requires 0 <= k < |nurses| && Matches(nurses[k], prenom, nom, status)
    requires forall j :: 0 <= j < k ==> !Matches(nurses[j], prenom, nom, status)
    ensures FirstMatch(nurses, prenom, nom, status) == Some(nurses[k].id)
  {
    if k > 0 {
      assert !Matches(nurses[0], prenom, nom, status);
      FirstMatchAt(nurses[1..], k - 1, prenom, nom, status);
    }
  }

  /** `get_infirmier_id_from_label`: parse the label; no first name finds nobody;
      a non-empty status is matched together with both names, otherwise the
      names alone are. */
  function LabelOwner(nurses: seq<Nurse>, lbl: string): (id: Option<int>)
    ensures lbl == "" ==> id.None?
    ensures nurses == [] ==> id.None?
  {
    var p := ParseLabel(Some(lbl));
    if p.prenom.None? || p.prenom.value == "" then None
    else if p.status.Some? && p.status.value != "" then FirstMatch(nurses, p.prenom.value, p.nom.value, p.status)
    else FirstMatch(nurses, p.prenom.value, p.nom.value, None)
  }

  /** How a label is resolved to a nurse id; the routes use `LabelOwner` over
      their nurse table. */
  type Resolver = string -> Option<int>

  /** A nurse whose names and status survive the label format (a one-word first
      name, no '-' anywhere, no surrounding blanks, a non-empty status). */
  predicate LabelSafe(n: Nurse) {
    n.prenom != "" && Stripped(n.prenom) && ' ' !in n.prenom && '-' !in n.prenom &&
    Stripped(n.nom) && '-' !in n.nom &&
    n.status != "" && Stripped(n.status) && '-' !in n.status
  }

  /** Names and status identify a nurse's label. */
  predicate SameIdentity(a: Nurse, b: Nurse) {
    a.prenom == b.prenom && a.nom == b.nom && a.status == b.status
  }

  /** The label written for a nurse leads back to that nurse, provided its
      names survive the format and no earlier nurse shares them. */
  lemma LabelOwnerOfNurseLabel(nurses: seq<Nurse>, k: int)
    requires 0 <= k < |nurses| && LabelSafe(nurses[k])
    requires forall j :: 0 <= j < k ==> !SameIdentity(nurses[j], nurses[k])
    ensures LabelOwner(nurses, NurseLabel(nurses[k])) == Some(nurses[k].id)
  {
    var n := nurses[k];
    ParseFormatRoundTrip(n.prenom, n.nom, n.status);
    FirstMatchAt(nurses, k, n.prenom, n.nom, Some(n.status));
  }

  /** `SELECT nom, prenom, status FROM listeInfirmier WHERE id = ?`. */
  function NurseById(nurses: seq<Nurse>, id: int): (n: Option<Nurse>)
    ensures n.Some? ==> n.value in nurses && n.value.id == id
    ensures n.None? ==> forall k :: 0 <= k < |nurses| ==> nurses[k].id != id
  {
    if nurses == [] then None
    else if nurses[0].id == id then Some(nurses[0])
    else NurseById(nurses[1..], id)
  }

  /** The value `assign_infirmier` writes: a given label, stripped, with an
      empty result meaning NULL; otherwise a non-zero id is turned into that
      nurse's label; anything else clears the cell. */
  function AssignedValue(nurses: seq<Nurse>, lbl: Option<string>, infirmierId: Option<int>): (v: Option<string>)
    ensures lbl.Some? && v.Some? ==> Stripped(v.value)
    ensures lbl.Some? ==> (v.None? <==> Strip(lbl.value) == "")
    ensures lbl.Some? && v.Some? ==> v.value == Strip(lbl.value)
    ensures lbl.None? && infirmierId.Some? && infirmierId.value != 0 && NurseById(nurses, infirmierId.value).Some?
            ==> v == Some(NurseLabel(NurseById(nurses, infirmierId.value).value))
    ensures lbl.None? && (infirmierId.None? || infirmierId.value == 0 || NurseById(nurses, infirmierId.value).None?)
            ==> v.None?
    ensures v.Some? ==> v.value != ""
  {
    if lbl.Some? then
      var s := Strip(lbl.value);
      if s == "" then None else Some(s)
    else if infirmierId.Some? && infirmierId.value != 0 then
      match NurseById(nurses, infirmierId.value)
      case Some(n) => Some(NurseLabel(n))
      case None => None
    else None
  }

  /** The decrement owed when a truthy label leaves room `r`: its owner, when
      one is found, loses one day in that room. */
  function Release(stats: Stats, owner: Resolver, old_: Option<string>, r: Room): (s: Stats)
    ensures !Truthy(old_) ==> s == stats
    ensures NonNegative(stats) ==> NonNegative(s)
  {
    if Truthy(old_) then
      match owner(old_.value)
      case Some(id) => DecrementStat(stats, id, r)
      case None => stats
    else stats
  }

  /** The increment owed when label `v` enters room `r`. */
  function Credit(stats: Stats, owner: Resolver, v: string, r: Room): (s: Stats)
    ensures NonNegative(stats) ==> NonNegative(s)
  {
    match owner(v)
    case Some(id) => IncrementStat(stats, id, r)
    case None => stats
  }

  /** The counter changes of `assign_infirmier` as written: clearing releases
      a truthy occupant; writing releases a truthy different occupant and then
      credits the new label unconditionally. */
  function AssignStatsAsWritten(stats: Stats, owner: Resolver, existing: Option<string>, value: Option<string>, r: Room): (s: Stats)
    ensures value.None? ==> s == Release(stats, owner, existing, r)
    ensures value.Some? && existing == value ==> s == Credit(stats, owner, value.value, r)
    ensures value.Some? && existing != value ==> s == AssignStats(stats, owner, existing, value, r)
  {
    if value.None? then Release(stats, owner, existing, r)
    else
      var released := if Truthy(existing) && existing.value != value.value then Release(stats, owner, existing, r) else stats;
      Credit(released, owner, value.value, r)
  }

  /** The counter changes of an assignment: the previous occupant is released
      and the new one credited, and re-writing the value a cell already holds
      changes no counter. */
  function AssignStats(stats: Stats, owner: Resolver, existing: Option<string>, value: Option<string>, r: Room): (s: Stats)
    ensures existing == value ==> s == stats
    ensures existing != value && value.None? ==> s == Release(stats, owner, existing, r)
    ensures existing != value && value.Some? ==> s == Credit(Release(stats, owner, existing, r), owner, value.value, r)
    ensures NonNegative(stats) ==> NonNegative(s)
  {
    if existing == value then stats
    else
      var released := Release(stats, owner, existing, r);
      if value.None? then released else Credit(released, owner, value.value, r)
  }

  /** The rooms of `rooms`, in order, whose cell holds `lbl` (truthy). */
  function Holders(row: DayRow, lbl: string, rooms: seq<Room>): (hs: seq<Room>)
    ensures |hs| <= |rooms|
  {
    if rooms == [] then []
    else
      var last := rooms[|rooms| - 1];
      Holders(row, lbl, rooms[..|rooms| - 1]) + (if Occupied(row, last) && row.cells[last] == lbl then [last] else [])
  }

  /** The holders of a label are exactly the listed rooms whose cell holds it. */
  lemma {:induction false} HoldersMembers(row: DayRow, lbl: string, rooms: seq<Room>)
    ensures forall x :: x in Holders(row, lbl, rooms) <==> x in rooms && Occupied(row, x) && row.cells[x] == lbl
  {
    if rooms != [] {
      var init := rooms[..|rooms| - 1];
      HoldersMembers(row, lbl, init);
      assert rooms == init + [rooms[|rooms| - 1]];
    }
  }

  /** The `labels` map of a day: the truthy cells. */
  function OccupiedCells(row: DayRow): (m: map<Room, string>)
    ensures forall r :: r in m <==> Occupied(row, r)
    ensures forall r :: r in m ==> r in row.cells && m[r] == row.cells[r]
  {
    map r | r in row.cells && row.cells[r] != "" :: row.cells[r]
  }

  /** A room whose label shows up in at least one other room that day. */
  predicate Duplicated(row: DayRow, r: Room) {
    Occupied(row, r) && |Holders(row, row.cells[r], SalleNames)| >= 2
  }

  /** The first room, in `rooms` order, whose cell holds `label`; a falsy
      label is found nowhere. */
  function FirstHolder(row: DayRow, lbl: Option<string>, rooms: seq<Room>): (r: Option<Room>)
    ensures r.Some? ==> r.value in rooms && Truthy(lbl) && Occupied(row, r.value) && row.cells[r.value] == lbl.value
    ensures r.None? ==> forall x :: x in rooms && Occupied(row, x) && Truthy(lbl) ==> row.cells[x] != lbl.value
  {
    if rooms == [] || !Truthy(lbl) then None
    else if Occupied(row, rooms[0]) && row.cells[rooms[0]] == lbl.value then Some(rooms[0])
    else FirstHolder(row, lbl, rooms[1..])
  }

  /** No room of `rooms` before position `i` holds `lbl`. */
  ghost predicate NoHolderBefore(row: DayRow, lbl: string, rooms: seq<Room>, i: int) {
    forall j :: 0 <= j < i && j < |rooms| ==> !(Occupied(row, rooms[j]) && row.cells[rooms[j]] == lbl)
  }

  /** The room found is the first one, in `rooms` order, holding the label. */
  lemma {:induction false} FirstHolderAt(row: DayRow, lbl: Option<string>, rooms: seq<Room>, k: int)
    requires 0 <= k < |rooms| && Truthy(lbl) && Occupied(row, rooms[k]) && row.cells[rooms[k]] == lbl.value
    requires forall j :: 0 <= j < k ==> !(Occupied(row, rooms[j]) && row.cells[rooms[j]] == lbl.value)
    ensures FirstHolder(row, lbl, rooms) == Some(rooms[k])
  {
    if k > 0 {
      assert !(Occupied(row, rooms[0]) && row.cells[rooms[0]] == lbl.value);
      FirstHolderAt(row, lbl, rooms[1..], k - 1);
    }
  }

  /** The rooms of `rooms`, in order, whose state is closed or unused. */
  function ClosedRooms(row: DayRow, rooms: seq<Room>): (cs: seq<Room>)
    ensures forall x :: x in cs <==> x in rooms && Unavailable(StateOf(row, x))
    ensures |cs| <= |rooms|
  {
    if rooms == [] then []
    else
      var last := rooms[|rooms| - 1];
      ClosedRooms(row, rooms[..|rooms| - 1]) + (if Unavailable(StateOf(row, last)) then [last] else [])
  }

  /** `x` appears in `rooms` before some occurrence of `y`. */
  ghost predicate Before(x: Room, y: Room, rooms: seq<Room>) {
    exists p, q :: 0 <= p < q < |rooms| && rooms[p] == x && rooms[q] == y
  }

  /** Any two entries of `cs` appear in `rooms` at increasing positions. */
  ghost predicate InOrderOf(cs: seq<Room>, rooms: seq<Room>) {
    forall i, j :: 0 <= i < j < |cs| ==> Before(cs[i], cs[j], rooms)
  }

  /** Appending a room to the list, and possibly to an ordered selection of
      it, keeps the selection ordered. */
  lemma InOrderExtend(cs: seq<Room>, rooms: seq<Room>, x: Room, keep: bool)
    requires InOrderOf(cs, rooms)
    requires forall i :: 0 <= i < |cs| ==> cs[i] in rooms
    ensures InOrderOf(cs + (if keep then [x] else []), rooms + [x])
  {
    var cs', rooms' := cs + (if keep then [x] else []), rooms + [x];
    forall i, j | 0 <= i < j < |cs'|
      ensures Before(cs'[i], cs'[j], rooms')
    {
      var a, b := cs[i], cs'[j];
      if j < |cs| {
        assert Before(a, b, rooms);
        var p, q :| 0 <= p < q < |rooms| && rooms[p] == a && rooms[q] == b;
        assert rooms'[p] == a && rooms'[q] == b;
      } else {
        assert a in rooms;
        var p :| 0 <= p < |rooms| && rooms[p] == a;
        assert rooms'[p] == a && rooms'[|rooms|] == b;
      }
    }
  }

  /** The closed rooms keep the order of `rooms`. */
  lemma {:induction false} ClosedRoomsInOrder(row: DayRow, rooms: seq<Room>)
    ensures InOrderOf(ClosedRooms(row, rooms), rooms)
  {
    if rooms != [] {
      var pre, last := rooms[..|rooms| - 1], rooms[|rooms| - 1];
      var head := ClosedRooms(row, pre);
      ClosedRoomsInOrder(row, pre);
      assert forall i :: 0 <= i < |head| ==> head[i] in pre;
      InOrderExtend(head, pre, last, Unavailable(StateOf(row, last)));
      assert pre + [last] == rooms;
    }
  }

  /** The dates of `rows` from `lo` to `hi`, in increasing order
      (`WHERE date BETWEEN ? AND ? ORDER BY date`). */
  function DatesBetween(rows: map<Date, DayRow>, lo: Date, hi: Date): (ds: seq<Date>)
    ensures forall d :: d in ds <==> d in rows && lo <= d <= hi
    ensures forall i, j :: 0 <= i < j < |ds| ==> ds[i] < ds[j]
    decreases hi - lo
  {
    if lo > hi then []
    else
      var rest := DatesBetween(rows, lo + 1, hi);
      assert forall j :: 0 <= j < |rest| ==> rest[j] in rest;
      (if lo in rows then [lo] else []) + rest
  }
}
