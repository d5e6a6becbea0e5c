/** The first-generation REST API (`backend/api/app.py`): nurse and statistics
    routes, and the whole-day schedule routes, whose cells hold nurse ids and
    whose counters are kept by `update_statistiques_from_assignment`. */
module LegacyApi {
  import opened Wrappers
  import opened Rooms
  import opened Counters
  import opened Records

  // ----- the counter rule of update_statistiques_from_assignment -----

  /** A cell of a stored day row; a column never written is NULL. */
  function CellOf(row: map<Room, Value>, r: Room): Value {
    if r in row then row[r] else Null
  }

  /** `old_assignments[field]`: the previous value of a room, when a previous
      row was read. */
  function Prior(existing: Option<map<Room, Value>>, r: Room): (p: Option<Value>)
    ensures existing.None? <==> p.None?
  {
    if existing.Some? then Some(CellOf(existing.value, r)) else None
  }

  /** The `WHERE infirmierID = ?` match: an integer id names that nurse's row. */
  predicate Names(v: Value, id: int) {
    v == Int(id)
  }

  /** Whether the previous occupant of the room is decremented: it is truthy
      and differs from the new value. */
  predicate Releases(v: Value, prior: Option<Value>) {
    IsTruthy(v) && prior.Some? && IsTruthy(prior.value) && prior.value != v
  }

  /** Whether the new occupant is incremented: no previous row was read, or
      the value changed. */
  predicate Credits(v: Value, prior: Option<Value>) {
    IsTruthy(v) && (prior.None? || prior.value != v)
  }

  /** The counter of nurse `id` for one room after that room's field was
      processed: `v` is the new value and `prior` the previous one.
      `SET f = f - 1 WHERE ... AND f > 0` and `SET f = f + 1`. */
  function FieldCount(c: int, id: int, v: Value, prior: Option<Value>): (c': int)
    ensures c >= 0 ==> c' >= 0
    ensures !IsTruthy(v) || prior == Some(v) ==> c' == c
  {
    var c1 := if Releases(v, prior) && Names(prior.value, id) && c > 0 then c - 1 else c;
    if Credits(v, prior) && Names(v, id) then c1 + 1 else c1
  }

  /** The whole statistics table after processing every room of
      `assignment_data` against the previous row `existing`. Rows and NULL
      counters stay as they are (`NULL + 1` is NULL). */
  function StatsAfter(stats: Stats, data: Dict, existing: Option<map<Room, Value>>): (s: Stats)
    ensures s.Keys == stats.Keys
    ensures forall id :: id in s ==> s[id].Keys == stats[id].Keys
    ensures NonNegative(stats) ==> NonNegative(s)
  {
    map id | id in stats ::
      map r | r in stats[id] :: FieldCount(stats[id][r], id, Get(data, Key(r), Null), Prior(existing, r))
  }

  /** The table after processing the rooms of `done` only. */
  function PartlyAfter(stats: Stats, data: Dict, existing: Option<map<Room, Value>>, done: set<Room>): (s: Stats)
    ensures s.Keys == stats.Keys
    ensures forall id :: id in s ==> s[id].Keys == stats[id].Keys
  {
    map id | id in stats ::
      map r | r in stats[id] ::
        if r in done then FieldCount(stats[id][r], id, Get(data, Key(r), Null), Prior(existing, r))
        else stats[id][r]
  }

  /** `UPDATE statistique SET f = f + 1 WHERE infirmierID = id`: no row or a
      NULL counter is left alone. */
  function AddOne(stats: Stats, id: int, r: Room): (s: Stats)
    ensures s.Keys == stats.Keys && forall i :: i in s ==> s[i].Keys == stats[i].Keys
    ensures id in stats && r in stats[id] ==> s[id][r] == stats[id][r] + 1
    ensures forall i, x :: i in s && x in s[i] && (i != id || x != r) ==> s[i][x] == stats[i][x]
  {
    if id in stats && r in stats[id] then stats[id := stats[id][r := stats[id][r] + 1]] else stats
  }

  /** `UPDATE statistique SET f = f - 1 WHERE infirmierID = id AND f > 0`. */
  function SubOne(stats: Stats, id: int, r: Room): (s: Stats)
    ensures s.Keys == stats.Keys && forall i :: i in s ==> s[i].Keys == stats[i].Keys
    ensures id in stats && r in stats[id] ==> s[id][r] == if stats[id][r] > 0 then stats[id][r] - 1 else stats[id][r]
    ensures forall i, x :: i in s && x in s[i] && (i != id || x != r) ==> s[i][x] == stats[i][x]
  {
    if id in stats && r in stats[id] && stats[id][r] > 0 then stats[id := stats[id][r := stats[id][r] - 1]] else stats
  }

  /** The loop body for room `r`: release the previous occupant when it is
      truthy and differs, then credit the new one when it is new or changed. */
  function StepRoom(s: Stats, r: Room, v: Value, prior: Option<Value>): (s': Stats)
    ensures s'.Keys == s.Keys && forall i :: i in s' ==> s'[i].Keys == s[i].Keys
    ensures forall id, x :: id in s && x in s[id] ==>
      s'[id][x] == if x == r then FieldCount(s[id][x], id, v, prior) else s[id][x]
  {
    var s1 := if Releases(v, prior) && prior.value.Int? then SubOne(s, prior.value.n, r) else s;
    if Credits(v, prior) && v.Int? then AddOne(s1, v.n, r) else s1
  }

  /** One pass of the loop body: processing room `r` on top of the rooms of
      `done` gives the table with `done + {r}` processed. */
  lemma ProcessRoom(s0: Stats, data: Dict, existing: Option<map<Room, Value>>, done: set<Room>, r: Room)
    requires r !in done
    ensures StepRoom(PartlyAfter(s0, data, existing, done), r, Get(data, Key(r), Null), Prior(existing, r))
            == PartlyAfter(s0, data, existing, done + {r})
  {
    var s := PartlyAfter(s0, data, existing, done);
    var s2 := StepRoom(s, r, Get(data, Key(r), Null), Prior(existing, r));
    var t := PartlyAfter(s0, data, existing, done + {r});
    forall id, x | id in s2 && x in s2[id]
      ensures s2[id][x] == t[id][x]
    {
      ProcessRoomAt(s0, data, existing, done, r, id, x);
    }
    SameCounters(s2, t);
  }

  /** `ProcessRoom` for one counter. */
  lemma ProcessRoomAt(s0: Stats, data: Dict, existing: Option<map<Room, Value>>, done: set<Room>, r: Room, id: int, x: Room)
    requires r !in done && id in s0 && x in s0[id]
    ensures var s := PartlyAfter(s0, data, existing, done);
      StepRoom(s, r, Get(data, Key(r), Null), Prior(existing, r))[id][x]
      == PartlyAfter(s0, data, existing, done + {r})[id][x]
  {
    var s := PartlyAfter(s0, data, existing, done);
    var t := PartlyAfter(s0, data, existing, done + {r});
    PartlyAfterAt(s0, data, existing, done, id, x);
    PartlyAfterAt(s0, data, existing, done + {r}, id, x);
    var c := s[id][x];
    var v, p := Get(data, Key(r), Null), Prior(existing, r);
    assert StepRoom(s, r, v, p)[id][x] == if x == r then FieldCount(c, id, v, p) else c;
    if x == r {
      assert c == s0[id][x];
      assert t[id][x] == FieldCount(c, id, v, p);
    } else {
      OtherRoomNotAdded(done, r, x);
    }
  }

  /** Adding room `r` to the processed set says nothing new about another room. */
  lemma OtherRoomNotAdded(done: set<Room>, r: Room, x: Room)
    requires x != r
    ensures (x in done + {r}) == (x in done)
  {
  }

  /** Two tables with the same rows, the same columns and the same counters
      are the same table. */
  lemma SameCounters(a: Stats, b: Stats)
    requires a.Keys == b.Keys
    requires forall id :: id in a ==> a[id].Keys == b[id].Keys
    requires forall id, x :: id in a && x in a[id] ==> a[id][x] == b[id][x]
    ensures a == b
  {
    forall id | id in a ensures a[id] == b[id] { }
  }

  /** One counter of the partial table. */
  lemma PartlyAfterAt(s0: Stats, data: Dict, existing: Option<map<Room, Value>>, done: set<Room>, id: int, x: Room)
    requires id in s0 && x in s0[id]
    ensures id in PartlyAfter(s0, data, existing, done) && x in PartlyAfter(s0, data, existing, done)[id]
    ensures PartlyAfter(s0, data, existing, done)[id][x]
            == if x in done then FieldCount(s0[id][x], id, Get(data, Key(x), Null), Prior(existing, x)) else s0[id][x]
  {
  }

  /** With every room processed, the partial table is the final one. */
  lemma AllProcessed(s0: Stats, data: Dict, existing: Option<map<Room, Value>>, done: set<Room>)
    requires forall r: Room :: r in done
    ensures PartlyAfter(s0, data, existing, done) == StatsAfter(s0, data, existing)
  {
    var a := PartlyAfter(s0, data, existing, done);
    var b := StatsAfter(s0, data, existing);
    forall id | id in a ensures a[id] == b[id] { }
  }

  /** With nothing processed, the partial table is the initial one. */
  lemma NoneProcessed(s0: Stats, data: Dict, existing: Option<map<Room, Value>>)
    ensures PartlyAfter(s0, data, existing, {}) == s0
  {
    var t := PartlyAfter(s0, data, existing, {});
    forall id | id in s0 ensures t[id] == s0[id] { }
  }

  // ----- the properties of the counter rule -----

  /** A new day (no previous row): every counter goes up by one for each room
      the day assigns to that nurse, and by nothing otherwise. */
  lemma InsertCountsAssignments(stats: Stats, data: Dict, id: int, r: Room)
    requires id in stats && r in stats[id]
    ensures StatsAfter(stats, data, None)[id][r]
            == stats[id][r] + (if id != 0 && Get(data, Key(r), Null) == Int(id) then 1 else 0)
  {
  }

  /** A room field absent or falsy in the body changes no counter for that room. */
  lemma FalsyFieldChangesNothing(stats: Stats, data: Dict, existing: Option<map<Room, Value>>, r: Room)
    requires !IsTruthy(Get(data, Key(r), Null))
    ensures forall id :: id in stats && r in stats[id] ==> StatsAfter(stats, data, existing)[id][r] == stats[id][r]
  {
  }

  /** A room whose value moves from nurse `a` to nurse `b` (two different,
      non-zero ids): `a` loses one (never below zero), `b` gains one, and
      every other nurse's counter for that room is unchanged. */
  lemma ReassignMovesCounter(stats: Stats, data: Dict, oldRow: map<Room, Value>, r: Room, a: int, b: int)
    requires a != 0 && b != 0 && a != b
    requires CellOf(oldRow, r) == Int(a) && Get(data, Key(r), Null) == Int(b)
    ensures var s := StatsAfter(stats, data, Some(oldRow));
      (a in stats && r in stats[a] ==> s[a][r] == if stats[a][r] > 0 then stats[a][r] - 1 else stats[a][r]) &&
      (b in stats && r in stats[b] ==> s[b][r] == stats[b][r] + 1) &&
      (forall i :: i in stats && r in stats[i] && i != a && i != b ==> s[i][r] == stats[i][r])
  {
    var s := StatsAfter(stats, data, Some(oldRow));
    var v, p := Int(b), Some(Int(a));
    assert Prior(Some(oldRow), r) == p;
    forall i | i in stats && r in stats[i]
      ensures s[i][r] == if i == a && stats[i][r] > 0 then stats[i][r] - 1 else if i == b then stats[i][r] + 1 else stats[i][r]
    {
      assert s[i][r] == FieldCount(stats[i][r], i, v, p);
      FieldCountMove(stats[i][r], i, a, b);
    }
  }

  /** The counter rule for a value that changes from nurse `a` to nurse `b`. */
  lemma FieldCountMove(c: int, id: int, a: int, b: int)
    requires a != 0 && b != 0 && a != b
    ensures FieldCount(c, id, Int(b), Some(Int(a))) == if id == a && c > 0 then c - 1 else if id == b then c + 1 else c
  {
  }

  /** The row a PUT writes: each room from the body, or the stored value when
      the body does not name it. */
  function MergedRow(oldRow: map<Room, Value>, data: Dict): (row: map<Room, Value>)
    ensures Complete(row)
    ensures forall r :: row[r] == Get(data, Key(r), CellOf(oldRow, r))
  {
    SalleNamesEnumerates();
    map r: Room | r in SalleNames :: Get(data, Key(r), CellOf(oldRow, r))
  }

  /** `update_emploisdutemps` as written: the row is committed first, so the
      "previous" row handed to the counter rule is already the merged one, and
      no counter changes, whatever the body reassigns. */
  function PutStatsAsWritten(stats: Stats, data: Dict, oldRow: map<Room, Value>): (s: Stats)
    ensures s == stats
  {
    PutAsWrittenChangesNothing(stats, data, oldRow);
    StatsAfter(stats, data, Some(MergedRow(oldRow, data)))
  }

  /** Comparing the body with the row it has already overwritten finds no
      change, so the counter rule leaves every counter alone. */
  lemma {:induction false} PutAsWrittenChangesNothing(stats: Stats, data: Dict, oldRow: map<Room, Value>)
    ensures StatsAfter(stats, data, Some(MergedRow(oldRow, data))) == stats
  {
    var s := StatsAfter(stats, data, Some(MergedRow(oldRow, data)));
    var merged := MergedRow(oldRow, data);
    forall id | id in stats
      ensures s[id] == stats[id]
    {
      forall r | r in stats[id]
        ensures s[id][r] == stats[id][r]
      {
        var v := Get(data, Key(r), Null);
        if IsTruthy(v) {
          assert Key(r) in data;
          assert Prior(Some(merged), r) == Some(v);
        }
      }
    }
  }

  /** The concrete case: moving salle16 from nurse 1 to nurse 2 leaves both
      counters where they were. */
  lemma PutAsWrittenMissesMove(stats: Stats)
    requires 1 in stats && Salle16 in stats[1] && stats[1][Salle16] > 0
    requires 2 in stats && Salle16 in stats[2]
    ensures var data := map["salle16" := Int(2)];
      var oldRow := map[Salle16 := Int(1)];
      PutStatsAsWritten(stats, data, oldRow)[1][Salle16] == stats[1][Salle16] &&
      PutStatsAsWritten(stats, data, oldRow)[2][Salle16] == stats[2][Salle16] &&
      StatsAfter(stats, data, Some(oldRow))[1][Salle16] == stats[1][Salle16] - 1 &&
      StatsAfter(stats, data, Some(oldRow))[2][Salle16] == stats[2][Salle16] + 1
  {
    var data := map["salle16" := Int(2)];
    var oldRow := map[Salle16 := Int(1)];
    assert Get(data, Key(Salle16), Null) == Int(2);
    ReassignMovesCounter(stats, data, oldRow, Salle16, 1, 2);
  }

  // ----- the tables -----

  /** A `listeInfirmier` row; `present` is stored as 1 or 0. */
  datatype NurseRow = NurseRow(nom: Value, prenom: Value, status: Value, present: int)

  /** The JSON reply describing a nurse. */
  datatype NurseReply = NurseReply(id: int, nom: Value, prenom: Value, status: Value, present: Value)

  datatype Reply<T> = Ok(body: T) | Created(body: T) | Fail(code: int)

  /** `1 if present else 0`. */
  function StoredFlag(present: Value): (f: int)
    ensures f == 1 <==> IsTruthy(present)
    ensures f == 0 <==> !IsTruthy(present)
  {
    if IsTruthy(present) then 1 else 0
  }

  class Database {
    /** `listeInfirmier`, by id. */
    var nurses: map<int, NurseRow>
    /** `statistique`, by `infirmierID`; a missing room is a NULL counter. */
    var stats: Stats
    /** `emploisDuTemps`, by date; the cells hold nurse ids. */
    var days: map<Value, map<Room, Value>>
    /** The id the next inserted nurse receives (`cursor.lastrowid`). */
    var nextId: int

    /** Ids handed out so far lie below `nextId`. */
    predicate Valid()
      reads this
    {
      nextId >= 1 &&
      (forall id :: id in nurses ==> id < nextId) &&
      (forall id :: id in stats ==> id < nextId)
    }

    constructor ()
      ensures Valid()
      ensures nurses == map[] && stats == map[] && days == map[]
    {
      nurses := map[];
      stats := map[];
      days := map[];
      nextId := 1;
    }

    /** `add_infirmier`: `nom` and `prenom` are required; `status` defaults to
        'J' and `present` to true. The new nurse gets a zeroed statistics row. */
    method AddInfirmier(data: Dict) returns (reply: Reply<NurseReply>)
      requires Valid()
      modifies this
      ensures Valid()
      ensures "nom" !in data || "prenom" !in data ==>
        reply == Fail(400) && nurses == old(nurses) && stats == old(stats) && nextId == old(nextId)
      ensures "nom" in data && "prenom" in data ==>
        var id := old(nextId);
        var status := Get(data, "status", Text("J"));
        var present := Get(data, "present", Bool(true));
        id !in old(nurses) && id !in old(stats) &&
        nurses == old(nurses)[id := NurseRow(data["nom"], data["prenom"], status, StoredFlag(present))] &&
        stats == old(stats)[id := ZeroRow()] &&
        reply == Created(NurseReply(id, data["nom"], data["prenom"], status, present))
      ensures days == old(days)
    {
      if "nom" !in data || "prenom" !in data {
        return Fail(400);
      }
      var nom, prenom := data["nom"], data["prenom"];
      var status := Get(data, "status", Text("J"));
      var present := Get(data, "present", Bool(true));
      var id := nextId;
      nextId := nextId + 1;
      nurses := nurses[id := NurseRow(nom, prenom, status, StoredFlag(present))];
      stats := stats[id := ZeroRow()];
      return Created(NurseReply(id, nom, prenom, status, present));
    }

    /** `update_infirmier`: an unknown id is a 404; every field the body does
        not give keeps its stored value; `present` is stored as 1 or 0. */
    method UpdateInfirmier(id: int, data: Dict) returns (reply: Reply<NurseReply>)
      requires Valid()
      modifies this
      ensures Valid()
      ensures id !in old(nurses) ==> reply == Fail(404) && nurses == old(nurses)
      ensures id in old(nurses) ==>
        var row := old(nurses)[id];
        var nom := Get(data, "nom", row.nom);
        var prenom := Get(data, "prenom", row.prenom);
        var status := Get(data, "status", row.status);
        var present := Get(data, "present", Bool(row.present != 0));
        nurses == old(nurses)[id := NurseRow(nom, prenom, status, StoredFlag(present))] &&
        reply == Ok(NurseReply(id, nom, prenom, status, present))
      ensures stats == old(stats) && days == old(days) && nextId == old(nextId)
    {
      if id !in nurses {
        return Fail(404);
      }
      var row := nurses[id];
      var nom := Get(data, "nom", row.nom);
      var prenom := Get(data, "prenom", row.prenom);
      var status := Get(data, "status", row.status);
      var present := Get(data, "present", Bool(row.present != 0));
      nurses := nurses[id := NurseRow(nom, prenom, status, StoredFlag(present))];
      return Ok(NurseReply(id, nom, prenom, status, present));
    }

    /** `update_statistique`: a nurse without a row is a 404; every room the
        body gives is overwritten (a `null` one becomes NULL), the others keep
        their stored value. The body's counters are given already decoded. */
    method UpdateStatistique(id: int, counts: map<Room, Option<int>>) returns (reply: Reply<map<Room, int>>)
      requires Valid()
      modifies this
      ensures Valid()
      ensures id !in old(stats) ==> reply == Fail(404) && stats == old(stats)
      ensures id in old(stats) ==>
        id in stats && stats.Keys == old(stats).Keys &&
        (forall i :: i in stats && i != id ==> stats[i] == old(stats)[i]) &&
        (forall r :: r in counts ==> Count(stats, id, r) == counts[r].GetOr(0) && (r in stats[id] <==> counts[r].Some?)) &&
        (forall r :: r !in counts ==> (r in stats[id] <==> r in old(stats)[id]) && Count(stats, id, r) == Count(old(stats), id, r)) &&
        reply == Ok(stats[id])
      ensures nurses == old(nurses) && days == old(days) && nextId == old(nextId)
    {
      if id !in stats {
        return Fail(404);
      }
      var row := stats[id];
      var updated: map<Room, int> := map[];
      var i := 0;
      SalleNamesEnumerates();
      while i < |SalleNames|
        invariant 0 <= i <= |SalleNames|
        invariant forall k :: 0 <= k < i ==>
          var r := SalleNames[k];
          if r in counts then (counts[r].Some? ==> r in updated && updated[r] == counts[r].value) && (counts[r].None? ==> r !in updated)
          else (r in row ==> r in updated && updated[r] == row[r]) && (r !in row ==> r !in updated)
        invariant forall r :: r in updated ==> exists k :: 0 <= k < i && SalleNames[k] == r
      {
        var field := SalleNames[i];
        var value := if field in counts then counts[field] else if field in row then Some(row[field]) else None;
        if value.Some? {
          updated := updated[field := value.value];
        }
        i := i + 1;
      }
      forall r ensures (r in counts ==> (r in updated <==> counts[r].Some?) && (counts[r].Some? ==> updated[r] == counts[r].value))
                    && (r !in counts ==> (r in updated <==> r in row) && (r in row ==> updated[r] == row[r]))
      {
        assert r in SalleNames;
        var k :| 0 <= k < |SalleNames| && SalleNames[k] == r;
      }
      stats := stats[id := updated];
      return Ok(updated);
    }

    /** `update_statistiques_from_assignment`: the loop over the twelve room
        fields, releasing the previous occupant and crediting the new one. */
    method UpdateStatsFromAssignment(data: Dict, existing: Option<map<Room, Value>>)
      modifies this
      ensures stats == StatsAfter(old(stats), data, existing)
      ensures nurses == old(nurses) && days == old(days) && nextId == old(nextId)
    {
      ghost var s0 := stats;
      ghost var done: set<Room> := {};
      NoneProcessed(s0, data, existing);
      SalleNamesEnumerates();
      var i := 0;
      while i < |SalleNames|
        invariant 0 <= i <= |SalleNames|
        invariant done == set k | 0 <= k < i :: SalleNames[k]
        invariant stats == PartlyAfter(s0, data, existing, done)
        invariant nurses == old(nurses) && days == old(days) && nextId == old(nextId)
      {
        var field := SalleNames[i];
        var v := Get(data, Key(field), Null);
        var prior := Prior(existing, field);
        assert field !in done;
        ProcessRoom(s0, data, existing, done, field);
        stats := StepRoom(stats, field, v, prior);
        done := done + {field};
        i := i + 1;
      }
      assert forall r: Room :: r in done by {
        forall r: Room ensures r in done {
          assert r in SalleNames;
          var k :| 0 <= k < |SalleNames| && SalleNames[k] == r;
        }
      }
      AllProcessed(s0, data, existing, done);
    }

    /** `add_emploisdutemps`: a body without `date`, or a date that already
        has a row, is a 400 that changes nothing; otherwise the row is stored
        (rooms missing from the body are NULL) and every assignment counted. */
    method AddEmploisDuTemps(data: Dict) returns (reply: Reply<map<Room, Value>>)
      requires Valid()
      modifies this
      ensures Valid()
      ensures "date" !in data || data["date"] in old(days) ==>
        reply == Fail(400) && days == old(days) && stats == old(stats)
      ensures "date" in data && data["date"] !in old(days) ==>
        days == old(days)[data["date"] := RoomsFrom(data, Null)] &&
        stats == StatsAfter(old(stats), data, None) &&
        reply == Created(RoomsFrom(data, Null))
      ensures nurses == old(nurses) && nextId == old(nextId)
    {
      if "date" !in data {
        return Fail(400);
      }
      var date := data["date"];
      if date in days {
        return Fail(400);
      }
      var row := RoomsFrom(data, Null);
      days := days[date := row];
      UpdateStatsFromAssignment(data, None);
      return Created(row);
    }

    /** `update_emploisdutemps` with the counter step corrected (see
        `PutStatsAsWritten` for the code as written): an unknown date is a 404;
        otherwise each room the body names is overwritten and the counters
        follow the change from the row as it was before the write. */
    method UpdateEmploisDuTemps(date: string, data: Dict) returns (reply: Reply<map<Room, Value>>)
      requires Valid()
      modifies this
      ensures Valid()
      ensures Text(date) !in old(days) ==> reply == Fail(404) && days == old(days) && stats == old(stats)
      ensures Text(date) in old(days) ==>
        var oldRow := old(days)[Text(date)];
        days == old(days)[Text(date) := MergedRow(oldRow, data)] &&
        stats == StatsAfter(old(stats), data, if date != "" then Some(oldRow) else None) &&
        reply == Ok(MergedRow(oldRow, data))
      ensures nurses == old(nurses) && nextId == old(nextId)
    {
      var key := Text(date);
      if key !in days {
        return Fail(404);
      }
      var oldRow := days[key];
      var row := MergedRow(oldRow, data);
      days := days[key := row];
      UpdateStatsFromAssignment(data, if date != "" then Some(oldRow) else None);
      return Ok(row);
    }
  }
}
