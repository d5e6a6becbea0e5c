/** What the counters of the `statistique` table are meant to be: for every
    nurse and room, the number of dates whose cell for that room holds a label
    resolving to that nurse. The scheduling routes keep this true step by step. */
module Bookkeeping {
  import opened Wrappers
  import opened Rooms
  import opened Counters
  import opened Schedule

  /** The cell of room `r` holds a truthy label that resolves to nurse `id`. */
  predicate HeldBy(row: DayRow, owner: Resolver, id: int, r: Room) {
    Occupied(row, r) && owner(row.cells[r]) == Some(id)
  }

  /** The dates on which nurse `id` is placed in room `r`. */
  function HeldDays(rows: map<Date, DayRow>, owner: Resolver, id: int, r: Room): set<Date> {
    set d | d in rows && HeldBy(rows[d], owner, id, r)
  }

  /** Every counter of every nurse equals the number of days the schedule
      places that nurse in that room. */
  ghost predicate Consistent(rows: map<Date, DayRow>, stats: Stats, owner: Resolver) {
    forall id, r :: id != 0 ==> Count(stats, id, r) == |HeldDays(rows, owner, id, r)|
  }

  /** The counter change owed for overwriting cell value `old_` with `v`:
      release the old label, then credit the new one. */
  function ReplaceStats(stats: Stats, owner: Resolver, old_: Option<string>, v: Option<string>, r: Room): (s: Stats)
    ensures NonNegative(stats) ==> NonNegative(s)
  {
    var released := Release(stats, owner, old_, r);
    if v.Some? then Credit(released, owner, v.value, r) else released
  }

  /** A release takes one day, never going below zero, from the owner of a
      truthy old label in room `r`, and nothing from anyone else. */
  lemma ReleaseCount(stats: Stats, owner: Resolver, old_: Option<string>, r: Room, id: int, x: Room)
    requires NonNegative(stats) && id != 0
    ensures var owns := x == r && Truthy(old_) && owner(old_.value) == Some(id);
            Count(Release(stats, owner, old_, r), id, x)
            == if owns && Count(stats, id, x) > 0 then Count(stats, id, x) - 1 else Count(stats, id, x)
  {
    if Truthy(old_) && owner(old_.value).Some? {
      var o := owner(old_.value).value;
      assert Release(stats, owner, old_, r) == DecrementStat(stats, o, r);
      if o == id && x == r {
        assert Count(stats, id, x) >= 0;
      }
    }
  }

  /** A credit adds one day to the owner of the new label in room `r`. */
  lemma CreditCount(stats: Stats, owner: Resolver, v: string, r: Room, id: int, x: Room)
    requires id != 0
    ensures var owns := x == r && owner(v) == Some(id);
            Count(Credit(stats, owner, v, r), id, x) == Count(stats, id, x) + (if owns then 1 else 0)
  {
  }

  /** Inserting an empty row adds no held day. */
  lemma EmptyRowHoldsNothing(rows: map<Date, DayRow>, stats: Stats, owner: Resolver, d: Date)
    requires Consistent(rows, stats, owner)
    ensures Consistent(rows[d := RowOrEmpty(rows, d)], stats, owner)
  {
    var rows' := rows[d := RowOrEmpty(rows, d)];
    forall id, r | id != 0
      ensures Count(stats, id, r) == |HeldDays(rows', owner, id, r)|
    {
      assert HeldDays(rows', owner, id, r) == HeldDays(rows, owner, id, r);
    }
  }

  /** Changing state columns only adds no held day and removes none. */
  lemma StatesHoldNothing(rows: map<Date, DayRow>, stats: Stats, owner: Resolver, d: Date, row: DayRow)
    requires Consistent(rows, stats, owner)
    requires d in rows && row.cells == rows[d].cells
    ensures Consistent(rows[d := row], stats, owner)
  {
    var rows' := rows[d := row];
    forall id, r | id != 0
      ensures Count(stats, id, r) == |HeldDays(rows', owner, id, r)|
    {
      assert HeldDays(rows', owner, id, r) == HeldDays(rows, owner, id, r);
    }
  }

  /** `update_salle_state` keeps the counters equal to the held days: a
      state change alone moves no day, and evicting the occupant of a closed
      room releases exactly that day. */
  lemma StateChangePreservesConsistency(rows: map<Date, DayRow>, stats: Stats, owner: Resolver, d: Date, r: Room, st: RoomState)
    requires NonNegative(stats) && Consistent(rows, stats, owner)
    requires owner("") == None
    ensures var row := SetState(RowOrEmpty(rows, d), r, st);
            Consistent(rows[d := row], stats, owner) &&
            Consistent(rows[d := SetCell(row, r, None)], Release(stats, owner, Cell(row, r), r), owner)
  {
    var row := SetState(RowOrEmpty(rows, d), r, st);
    var rows0 := rows[d := RowOrEmpty(rows, d)];
    EmptyRowHoldsNothing(rows, stats, owner, d);
    StatesHoldNothing(rows0, stats, owner, d, row);
    assert rows0[d := row] == rows[d := row];
    ResetPreservesConsistency(rows[d := row], stats, owner, d, r);
    assert rows[d := row][d := SetCell(row, r, None)] == rows[d := SetCell(row, r, None)];
  }

  /** Writing cell (`d`, `r`) leaves the held days of every other room alone. */
  lemma HeldDaysOtherRoom(rows: map<Date, DayRow>, owner: Resolver, d: Date, r: Room, v: Option<string>, id: int, x: Room)
    requires d in rows && x != r
    ensures HeldDays(rows[d := SetCell(rows[d], r, v)], owner, id, x) == HeldDays(rows, owner, id, x)
  {
    var rows' := rows[d := SetCell(rows[d], r, v)];
    assert Cell(rows'[d], x) == Cell(rows[d], x);
    assert HeldBy(rows'[d], owner, id, x) == HeldBy(rows[d], owner, id, x);
    forall e | e in rows'
      ensures HeldBy(rows'[e], owner, id, x) == HeldBy(rows[e], owner, id, x)
    {
    }
  }

  /** In room `r` itself, date `d` is swapped in or out according to the new label. */
  lemma HeldDaysSameRoom(rows: map<Date, DayRow>, owner: Resolver, d: Date, r: Room, v: Option<string>, id: int)
    requires d in rows
    ensures var rows' := rows[d := SetCell(rows[d], r, v)];
            HeldDays(rows', owner, id, r)
            == (HeldDays(rows, owner, id, r) - {d}) + (if HeldBy(rows'[d], owner, id, r) then {d} else {})
  {
  }

  /** Writing one cell and settling its counters by `ReplaceStats` keeps every
      counter equal to its number of held days. */
  lemma {:induction false} WritePreservesConsistency(rows: map<Date, DayRow>, stats: Stats, owner: Resolver, d: Date, r: Room, v: Option<string>)
    requires d in rows && NonNegative(stats) && Consistent(rows, stats, owner)
    requires owner("") == None
    ensures Consistent(rows[d := SetCell(rows[d], r, v)],
                       ReplaceStats(stats, owner, Cell(rows[d], r), v, r), owner)
  {
    var rows' := rows[d := SetCell(rows[d], r, v)];
    var stats' := ReplaceStats(stats, owner, Cell(rows[d], r), v, r);
    forall id, x | id != 0
      ensures Count(stats', id, x) == |HeldDays(rows', owner, id, x)|
    {
      WriteCountAt(rows, stats, owner, d, r, v, id, x);
    }
  }

  /** `WritePreservesConsistency` for one counter. */
  lemma WriteCountAt(rows: map<Date, DayRow>, stats: Stats, owner: Resolver, d: Date, r: Room, v: Option<string>, id: int, x: Room)
    requires d in rows && NonNegative(stats) && id != 0 && owner("") == None
    requires Count(stats, id, x) == |HeldDays(rows, owner, id, x)|
    ensures Count(ReplaceStats(stats, owner, Cell(rows[d], r), v, r), id, x)
            == |HeldDays(rows[d := SetCell(rows[d], r, v)], owner, id, x)|
  {
    var old_ := Cell(rows[d], r);
    var released := Release(stats, owner, old_, r);
    ReleaseCount(stats, owner, old_, r, id, x);
    assert NonNegative(released);
    if v.Some? {
      CreditCount(released, owner, v.value, r, id, x);
    }
    if x != r {
      HeldDaysOtherRoom(rows, owner, d, r, v, id, x);
    } else {
      WriteSameRoom(rows, owner, d, r, v, id);
    }
  }

  /** The held days of the written room gain or lose date `d` as the old and
      new labels say. */
  lemma WriteSameRoom(rows: map<Date, DayRow>, owner: Resolver, d: Date, r: Room, v: Option<string>, id: int)
    requires d in rows && owner("") == None
    ensures var held := HeldDays(rows, owner, id, r);
            var old_ := Cell(rows[d], r);
            var wasHeld := Truthy(old_) && owner(old_.value) == Some(id);
            var isHeld := v.Some? && Truthy(v) && owner(v.value) == Some(id);
            (wasHeld ==> |held| >= 1) &&
            |HeldDays(rows[d := SetCell(rows[d], r, v)], owner, id, r)|
            == |held| - (if wasHeld then 1 else 0) + (if isHeld then 1 else 0)
  {
    var rows' := rows[d := SetCell(rows[d], r, v)];
    var held := HeldDays(rows, owner, id, r);
    var old_ := Cell(rows[d], r);
    var wasHeld := Truthy(old_) && owner(old_.value) == Some(id);
    var isHeld := v.Some? && Truthy(v) && owner(v.value) == Some(id);
    assert wasHeld == HeldBy(rows[d], owner, id, r);
    assert isHeld == HeldBy(rows'[d], owner, id, r) by {
      assert Cell(rows'[d], r) == v;
    }
    HeldDaysSameRoom(rows, owner, d, r, v, id);
    SwapCard(held, HeldDays(rows', owner, id, r), d, wasHeld, isHeld);
  }

  /** Taking `d` out of a set and maybe putting it back changes its size by
      at most one each way. */
  lemma SwapCard<T>(a: set<T>, b: set<T>, d: T, inA: bool, inB: bool)
    requires inA <==> d in a
    requires b == (a - {d}) + (if inB then {d} else {})
    ensures inA ==> |a| >= 1
    ensures |b| == |a| - (if inA then 1 else 0) + (if inB then 1 else 0)
  {
    var rest := a - {d};
    assert |rest| == |a| - (if inA then 1 else 0);
    assert d !in rest;
  }

  /** `assign_infirmier` with the corrected counter rule keeps the counters
      equal to the held days, whether or not the date had a row. */
  lemma AssignPreservesConsistency(rows: map<Date, DayRow>, stats: Stats, owner: Resolver, d: Date, r: Room, v: Option<string>)
    requires NonNegative(stats) && Consistent(rows, stats, owner)
    requires owner("") == None
    ensures var row := RowOrEmpty(rows, d);
            Consistent(rows[d := SetCell(row, r, v)], AssignStats(stats, owner, Cell(row, r), v, r), owner)
  {
    var row := RowOrEmpty(rows, d);
    var rows0 := rows[d := row];
    EmptyRowHoldsNothing(rows, stats, owner, d);
    assert rows0[d := SetCell(row, r, v)] == rows[d := SetCell(row, r, v)];
    if Cell(row, r) == v {
      assert SetCell(row, r, v) == row;
      assert rows0[d := row] == rows0;
    } else {
      WritePreservesConsistency(rows0, stats, owner, d, r, v);
    }
  }

  /** `reset_assignment` on an occupied cell keeps the counters equal to the
      held days. */
  lemma ResetPreservesConsistency(rows: map<Date, DayRow>, stats: Stats, owner: Resolver, d: Date, r: Room)
    requires d in rows && NonNegative(stats) && Consistent(rows, stats, owner)
    requires owner("") == None
    ensures Consistent(rows[d := SetCell(rows[d], r, None)], Release(stats, owner, Cell(rows[d], r), r), owner)
  {
    WritePreservesConsistency(rows, stats, owner, d, r, None);
  }

  /** Re-assigning the label a cell already holds, under the rule as written,
      credits its owner a day it already had: the counters stop matching. */
  lemma AssignAsWrittenBreaksConsistency(rows: map<Date, DayRow>, stats: Stats, owner: Resolver, d: Date, r: Room, id: int)
    requires Consistent(rows, stats, owner)
    requires id != 0 && d in rows && HeldBy(rows[d], owner, id, r)
    ensures var v := Cell(rows[d], r);
            !Consistent(rows[d := SetCell(rows[d], r, v)], AssignStatsAsWritten(stats, owner, v, v, r), owner)
  {
    var v := Cell(rows[d], r);
    assert SetCell(rows[d], r, v) == rows[d];
    assert rows[d := rows[d]] == rows;
    CreditCount(stats, owner, v.value, r, id, r);
  }
}
