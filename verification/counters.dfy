/** The `statistique` table as the scheduling routes maintain it: one row per
    nurse holding, for every room, how many days the nurse has been placed there. */
module Counters {
  import opened Rooms

  /** Rows by `infirmierID`; a room missing from a row is a NULL column. */
  type Stats = map<int, map<Room, int>>

  /** `COALESCE(column, 0)`: the counter of nurse `id` for room `r`, NULL and a
      missing row both reading as zero. */
  function Count(stats: Stats, id: int, r: Room): int {
    if id in stats && r in stats[id] then stats[id][r] else 0
  }

  /** No counter is negative. */
  predicate NonNegative(stats: Stats) {
    forall id, r :: id in stats && r in stats[id] ==> stats[id][r] >= 0
  }

  /** The row a freshly inserted `statistique` row holds: every counter zero. */
  function ZeroRow(): (row: map<Room, int>)
    ensures forall r: Room :: r in row && row[r] == 0
  {
    SalleNamesEnumerates();
    map r: Room | r in SalleNames :: 0
  }

  /** `ensure_stat_row`: a falsy id does nothing; a nurse without a row gets a
      zeroed one; an existing row is left alone. */
  function EnsureStatRow(stats: Stats, id: int): (s: Stats)
    ensures id != 0 ==> id in s
    ensures forall i :: i in stats ==> i in s && s[i] == stats[i]
    ensures forall i :: i in s && i !in stats ==> i == id && id != 0
    ensures forall i, r :: Count(s, i, r) == Count(stats, i, r)
  {
    if id == 0 || id in stats then stats else stats[id := ZeroRow()]
  }

  /** `increment_stat`: `SET col = COALESCE(col, 0) + 1` on the nurse's row
      (created first if missing); a falsy id changes nothing. */
  function IncrementStat(stats: Stats, id: int, r: Room): (s: Stats)
    ensures id == 0 ==> s == stats
    ensures id != 0 ==> Count(s, id, r) == Count(stats, id, r) + 1
    ensures forall i, x :: (i != id || x != r) ==> Count(s, i, x) == Count(stats, i, x)
    ensures NonNegative(stats) ==> NonNegative(s)
  {
    if id == 0 then stats
    else
      var e := EnsureStatRow(stats, id);
      e[id := e[id][r := Count(e, id, r) + 1]]
  }

  /** `decrement_stat`: `SET col = CASE WHEN col > 0 THEN col - 1 ELSE 0 END`;
      a counter never drops below zero, and a NULL one becomes 0. */
  function DecrementStat(stats: Stats, id: int, r: Room): (s: Stats)
    ensures id == 0 ==> s == stats
    ensures id != 0 && Count(stats, id, r) > 0 ==> Count(s, id, r) == Count(stats, id, r) - 1
    ensures id != 0 && Count(stats, id, r) <= 0 ==> Count(s, id, r) == 0
    ensures forall i, x :: (i != id || x != r) ==> Count(s, i, x) == Count(stats, i, x)
    ensures NonNegative(stats) ==> NonNegative(s)
  {
    if id == 0 then stats
    else
      var e := EnsureStatRow(stats, id);
      var c := Count(e, id, r);
      e[id := e[id][r := if c > 0 then c - 1 else 0]]
  }

  /** A decrement undoes an increment, as far as the counters can tell. */
  lemma DecrementUndoesIncrement(stats: Stats, id: int, r: Room)
    requires NonNegative(stats)
    ensures forall i, x :: Count(DecrementStat(IncrementStat(stats, id, r), id, r), i, x) == Count(stats, i, x)
  {
  }
}
