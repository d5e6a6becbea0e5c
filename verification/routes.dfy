/** The scheduling routes of the back end, over an in-memory database: the
    `emploisDuTemps` rows by date, the `statistique` counters and the
    `listeInfirmier` table the labels resolve against. */
module Routes {
  import opened Wrappers
  import opened Rooms
  import opened Counters
  import opened Schedule
  import opened Bookkeeping

  /** Body of a successful `assign-infirmier`: the date, the room and the value written. */
  datatype Assigned = Assigned(date: Date, salle: Room, written: Option<string>)

  /** Body of a successful `salle-state`: the stored state and the updated row. */
  datatype StateChange = StateChange(date: Date, salle: Room, state: RoomState, emploi: DayRow)

  /** Body of `check-nurse-availability`. `sallesFermees` is absent from the
      reply for a date without a row. */
  datatype Availability = Availability(
    available: bool,
    assignedRoom: Option<Room>,
    sallesOccupees: seq<Room>,
    sallesFermees: Option<seq<Room>>)

  /** The two forms of the availability request: query parameters (GET) or a
      JSON body (POST), which may name the nurse by id instead of by label. */
  datatype AvailabilityQuery =
    | ByQuery(lbl: Option<string>, date: Option<Date>, currentRoom: Option<string>)
    | ByBody(lbl: Option<string>, infirmierId: Option<int>, date: Option<Date>, sourceSalle: Option<string>)

  /** One day of the week reply: the row, its truthy cells and its doublons. */
  datatype DayView = DayView(date: Date, emploi: DayRow, labels: map<Room, string>, doublons: seq<Room>)

  predicate Distinct<T(==)>(s: seq<T>) {
    forall i, j :: 0 <= i < j < |s| ==> s[i] != s[j]
  }

  lemma DistinctConcat<T>(a: seq<T>, b: seq<T>)
    requires Distinct(a) && Distinct(b)
    requires forall x :: x in a ==> x !in b
    ensures Distinct(a + b)
  {
    forall i, j | 0 <= i < j < |a + b|
      ensures (a + b)[i] != (a + b)[j]
    {
      if j >= |a| && i < |a| {
        assert (a + b)[i] in a && (a + b)[j] in b;
      }
    }
  }

  /** The rooms holding one label are listed once each. */
  lemma {:induction false} HoldersDistinct(row: DayRow, lbl: string, rooms: seq<Room>)
    requires Distinct(rooms)
    ensures Distinct(Holders(row, lbl, rooms))
  {
    if rooms != [] {
      var init := rooms[..|rooms| - 1];
      var last := rooms[|rooms| - 1];
      assert Distinct(init);
      HoldersDistinct(row, lbl, init);
      assert last !in init;
      HoldersMembers(row, lbl, init);
      DistinctConcat(Holders(row, lbl, init), if Occupied(row, last) && row.cells[last] == lbl then [last] else []);
    }
  }

  /** What the week route reports for one day. */
  predicate DayViewOf(v: DayView, d: Date, row: DayRow) {
    v.date == d && v.emploi == row &&
    (forall r :: r in v.labels <==> Occupied(row, r)) &&
    (forall r :: r in v.labels ==> r in row.cells && v.labels[r] == row.cells[r]) &&
    (forall r :: r in v.doublons <==> Duplicated(row, r)) &&
    Distinct(v.doublons)
  }

  /** Extending the visited rooms by one room extends its holders list by
      that room exactly when it holds the label. */
  lemma HoldersStep(row: DayRow, lbl: string, rooms: seq<Room>, x: Room)
    ensures Holders(row, lbl, rooms + [x])
            == Holders(row, lbl, rooms) + (if Occupied(row, x) && row.cells[x] == lbl then [x] else [])
  {
    assert (rooms + [x])[..|rooms|] == rooms;
  }

  /** `labels` holds exactly the truthy cells of the rooms in `visited`. */
  ghost predicate LabelsOf(row: DayRow, visited: seq<Room>, labels: map<Room, string>) {
    (forall r :: r in labels <==> r in visited && Occupied(row, r)) &&
    (forall r :: r in labels ==> r in row.cells && labels[r] == row.cells[r])
  }

  /** `groups` maps each label in `keys` (listed once each) to the rooms of
      `visited` holding it. */
  ghost predicate GroupsOf(row: DayRow, visited: seq<Room>, keys: seq<string>, groups: map<string, seq<Room>>) {
    (forall k :: k in groups <==> k in keys) &&
    (forall k :: k in groups ==> groups[k] == Holders(row, k, visited)) &&
    Distinct(keys)
  }

  /** After visiting `visited`: `labels` holds its truthy cells, `groups` maps
      each label met to the visited rooms holding it, and `keys` lists those
      labels in the order first met. */
  ghost predicate Grouped(row: DayRow, visited: seq<Room>, labels: map<Room, string>, keys: seq<string>, groups: map<string, seq<Room>>) {
    LabelsOf(row, visited, labels) &&
    GroupsOf(row, visited, keys, groups) &&
    (forall r :: r in labels ==> labels[r] in groups)
  }

  lemma LabelsStep(row: DayRow, visited: seq<Room>, field: Room, labels: map<Room, string>)
    requires LabelsOf(row, visited, labels)
    ensures Occupied(row, field) ==> LabelsOf(row, visited + [field], labels[field := row.cells[field]])
    ensures !Occupied(row, field) ==> LabelsOf(row, visited + [field], labels)
  {
  }

  /** A label some visited room holds already has its group. */
  lemma HeldLabelGrouped(row: DayRow, visited: seq<Room>, labels: map<Room, string>, keys: seq<string>, groups: map<string, seq<Room>>, k: string)
    requires Grouped(row, visited, labels, keys, groups)
    ensures Holders(row, k, visited) != [] ==> k in groups
  {
    if Holders(row, k, visited) != [] {
      var x := Holders(row, k, visited)[0];
      HoldersMembers(row, k, visited);
      assert x in labels;
    }
  }

  lemma GroupsStep(row: DayRow, visited: seq<Room>, field: Room, keys: seq<string>, groups: map<string, seq<Room>>)
    requires GroupsOf(row, visited, keys, groups)
    requires Occupied(row, field) && row.cells[field] !in groups ==> Holders(row, row.cells[field], visited) == []
    ensures !Occupied(row, field) ==> GroupsOf(row, visited + [field], keys, groups)
    ensures Occupied(row, field) && row.cells[field] in groups ==>
      GroupsOf(row, visited + [field], keys, groups[row.cells[field] := groups[row.cells[field]] + [field]])
    ensures Occupied(row, field) && row.cells[field] !in groups ==>
      GroupsOf(row, visited + [field], keys + [row.cells[field]], groups[row.cells[field] := [field]])
  {
    forall k
      ensures Holders(row, k, visited + [field])
              == Holders(row, k, visited) + (if Occupied(row, field) && row.cells[field] == k then [field] else [])
    {
      HoldersStep(row, k, visited, field);
    }
    if Occupied(row, field) && row.cells[field] !in groups {
      var c := row.cells[field];
      assert forall x :: x in keys ==> x != c;
      DistinctConcat(keys, [c]);
    }
  }

  /** One step of the first loop of the doublon pass: record room `field`
      under its label when its cell is truthy. */
  method VisitRoom(row: DayRow, visited: seq<Room>, field: Room,
                   labels: map<Room, string>, keys: seq<string>, groups: map<string, seq<Room>>)
    returns (labels': map<Room, string>, keys': seq<string>, groups': map<string, seq<Room>>)
    requires Grouped(row, visited, labels, keys, groups)
    ensures Grouped(row, visited + [field], labels', keys', groups')
  {
    LabelsStep(row, visited, field, labels);
    if Occupied(row, field) && row.cells[field] !in groups {
      HeldLabelGrouped(row, visited, labels, keys, groups, row.cells[field]);
    }
    GroupsStep(row, visited, field, keys, groups);
    labels', keys', groups' := labels, keys, groups;
    var c := Cell(row, field);
    if Truthy(c) {
      labels' := labels[field := c.value];
      if c.value in groups {
        groups' := groups[c.value := groups[c.value] + [field]];
      } else {
        keys' := keys + [c.value];
        groups' := groups[c.value := [field]];
      }
    }
  }

  /** The first loop of the doublon pass: the truthy cells (`labels`) and, for
      every label met, the rooms holding it (`label_count`), with the labels in
      the order first met. */
  method GroupByLabel(row: DayRow, rooms: seq<Room>) returns (labels: map<Room, string>, keys: seq<string>, groups: map<string, seq<Room>>)
    ensures Grouped(row, rooms, labels, keys, groups)
  {
    labels := map[];
    keys := [];
    groups := map[];
    var i := 0;
    while i < |rooms|
      invariant 0 <= i <= |rooms|
      invariant Grouped(row, rooms[..i], labels, keys, groups)
    {
      assert rooms[..i + 1] == rooms[..i] + [rooms[i]];
      labels, keys, groups := VisitRoom(row, rooms[..i], rooms[i], labels, keys, groups);
      i := i + 1;
    }
    assert rooms[..i] == rooms;
  }

  /** `doublons` lists, once each, the occupied rooms whose label is among
      `ks` and is held in more than one room. */
  ghost predicate DoublonsOf(row: DayRow, ks: seq<string>, doublons: seq<Room>) {
    (forall r :: r in doublons <==> Occupied(row, r) && row.cells[r] in ks && |Holders(row, row.cells[r], SalleNames)| > 1) &&
    Distinct(doublons)
  }

  /** One step of the second loop: the rooms of label `keys[j]` join the
      doublons when there are more than one. */
  lemma DoublonsStep(row: DayRow, keys: seq<string>, groups: map<string, seq<Room>>, j: int, doublons: seq<Room>)
    requires GroupsOf(row, SalleNames, keys, groups)
    requires 0 <= j < |keys| && DoublonsOf(row, keys[..j], doublons)
    ensures var salles := groups[keys[j]];
      DoublonsOf(row, keys[..j + 1], if |salles| > 1 then doublons + salles else doublons)
  {
    var salles := groups[keys[j]];
    HoldersMembers(row, keys[j], SalleNames);
    assert keys[..j + 1] == keys[..j] + [keys[j]];
    assert keys[j] !in keys[..j];
    if |salles| > 1 {
      SalleNamesEnumerates();
      HoldersDistinct(row, keys[j], SalleNames);
      assert forall r :: r in doublons ==> r !in salles;
      DistinctConcat(doublons, salles);
    }
  }

  /** Every label met has been looked at: the doublons are the duplicated rooms. */
  lemma DoublonsComplete(row: DayRow, labels: map<Room, string>, keys: seq<string>, groups: map<string, seq<Room>>, doublons: seq<Room>)
    requires Grouped(row, SalleNames, labels, keys, groups)
    requires DoublonsOf(row, keys, doublons)
    ensures forall r :: r in doublons <==> Duplicated(row, r)
  {
    SalleNamesEnumerates();
    forall r | Duplicated(row, r)
      ensures r in doublons
    {
      assert r in labels;
    }
  }

  /** The doublon pass of `get_emplois_du_temps_semaine`: group the rooms by
      label, then list the rooms of every label held in more than one room. */
  method DayDoublons(row: DayRow) returns (labels: map<Room, string>, doublons: seq<Room>)
    ensures forall r :: r in labels <==> Occupied(row, r)
    ensures forall r :: r in labels ==> r in row.cells && labels[r] == row.cells[r]
    ensures forall r :: r in doublons <==> Duplicated(row, r)
    ensures Distinct(doublons)
  {
    var keys, groups;
    labels, keys, groups := GroupByLabel(row, SalleNames);
    doublons := [];
    var j := 0;
    while j < |keys|
      invariant 0 <= j <= |keys|
      invariant DoublonsOf(row, keys[..j], doublons)
    {
      DoublonsStep(row, keys, groups, j, doublons);
      var salles := groups[keys[j]];
      if |salles| > 1 {
        doublons := doublons + salles;
      }
      j := j + 1;
    }
    assert keys[..j] == keys;
    DoublonsComplete(row, labels, keys, groups, doublons);
    SalleNamesEnumerates();
  }

  /** The first loop of `check_nurse_availability`: scan the rooms in order
      and stop at the first whose truthy cell equals the label. */
  method FindHolder(row: DayRow, lbl: Option<string>, rooms: seq<Room>) returns (found: Option<Room>)
    ensures found == FirstHolder(row, lbl, rooms)
    ensures found.Some? ==>
      exists i :: 0 <= i < |rooms| && rooms[i] == found.value && NoHolderBefore(row, lbl.value, rooms, i)
  {
    found := None;
    var i := 0;
    while i < |rooms|
      invariant 0 <= i <= |rooms|
      invariant FirstHolder(row, lbl, rooms) == FirstHolder(row, lbl, rooms[i..])
      invariant Truthy(lbl) ==> NoHolderBefore(row, lbl.value, rooms, i)
    {
      var field := rooms[i];
      assert rooms[i..][1..] == rooms[i + 1..];
      if Truthy(Cell(row, field)) && Truthy(lbl) && row.cells[field] == lbl.value {
        assert rooms[i] == field;
        return Some(field);
      }
      i := i + 1;
    }
  }

  /** The second loop of `check_nurse_availability`: the closed or unused
      rooms, in room order. */
  method ClosedList(row: DayRow, rooms: seq<Room>) returns (closed: seq<Room>)
    ensures closed == ClosedRooms(row, rooms)
    ensures InOrderOf(closed, rooms)
  {
    closed := [];
    var k := 0;
    while k < |rooms|
      invariant 0 <= k <= |rooms|
      invariant closed == ClosedRooms(row, rooms[..k])
    {
      assert rooms[..k + 1][..k] == rooms[..k];
      if Unavailable(StateOf(row, rooms[k])) {
        closed := closed + [rooms[k]];
      }
      k := k + 1;
    }
    assert rooms[..k] == rooms;
    ClosedRoomsInOrder(row, rooms);
  }

  class Store {
    /** `emploisDuTemps`, by date. */
    var rows: map<Date, DayRow>
    /** `statistique`, by nurse id. */
    var stats: Stats
    /** `listeInfirmier`, in table order; these routes only read it. */
    const nurses: seq<Nurse>
    /** `get_infirmier_id_from_label` against `nurses`. */
    const owner: Resolver

    /** The empty label resolves to nobody, no counter is negative, and every counter is the number of days the
        schedule places that nurse in that room. */
    ghost predicate Valid()
      reads this
    {
      owner("") == None && NonNegative(stats) && Consistent(rows, stats, owner)
    }

    /** An empty schedule over a given nurse table. */
    constructor (nurses: seq<Nurse>)
      ensures this.nurses == nurses && rows == map[] && stats == map[]
      ensures forall s :: owner(s) == LabelOwner(nurses, s)
      ensures Valid()
    {
      this.nurses := nurses;
      owner := s => LabelOwner(nurses, s);
      rows := map[];
      stats := map[];
    }

    /** `assign_infirmier`: writes a label (or NULL) into one cell, creating the
        day's row first when missing, and moves the counters from the previous
        occupant to the new one. */
    method AssignInfirmier(date: Option<Date>, salle: Option<Room>, lbl: Option<string>, infirmierId: Option<int>)
      returns (reply: Reply<Assigned>)
      requires Valid()
      modifies this
      ensures Valid()
      ensures date.None? || salle.None? ==> reply == Fail(400) && rows == old(rows) && stats == old(stats)
      ensures date.Some? && salle.Some? ==>
        var row := RowOrEmpty(old(rows), date.value);
        var v := AssignedValue(nurses, lbl, infirmierId);
        reply == Ok(Assigned(date.value, salle.value, v)) &&
        rows == old(rows)[date.value := SetCell(row, salle.value, v)] &&
        stats == AssignStats(old(stats), owner, Cell(row, salle.value), v, salle.value)
    {
      if date.None? || salle.None? {
        return Fail(400);
      }
      var d, r := date.value, salle.value;
      var value := AssignedValue(nurses, lbl, infirmierId);
      WriteAssignment(d, r, value);
      return Ok(Assigned(d, r, value));
    }

    /** The write half of `assign_infirmier`: create the day's row when it is
        missing, release the previous occupant (when the cell is cleared, or
        when a different label replaces it), write the value, and credit the
        new occupant unless the cell already held that very value. */
    method WriteAssignment(d: Date, r: Room, value: Option<string>)
      requires Valid()
      modifies this
      ensures Valid()
      ensures var row := RowOrEmpty(old(rows), d);
        rows == old(rows)[d := SetCell(row, r, value)] &&
        stats == AssignStats(old(stats), owner, Cell(row, r), value, r)
    {
      AssignPreservesConsistency(rows, stats, owner, d, r, value);
      var row := RowOrEmpty(rows, d);
      var existing := Cell(row, r);
      if value.None? {
        if Truthy(existing) {
          stats := Release(stats, owner, existing, r);
        }
      } else {
        if Truthy(existing) && existing.value != value.value {
          stats := Release(stats, owner, existing, r);
        }
        if existing != value {
          stats := Credit(stats, owner, value.value, r);
        }
      }
      rows := rows[d := SetCell(row, r, value)];
    }

    /** `reset_assignment`: empties an occupied cell and releases its occupant;
        a missing row or an empty cell is a 404 that changes nothing. */
    method ResetAssignment(date: Option<Date>, salle: Option<Room>) returns (reply: Reply<()>)
      requires Valid()
      modifies this
      ensures Valid()
      ensures date.None? || salle.None? ==> reply == Fail(400) && rows == old(rows) && stats == old(stats)
      ensures date.Some? && salle.Some? && !(date.value in old(rows) && Occupied(old(rows)[date.value], salle.value)) ==>
        reply == Fail(404) && rows == old(rows) && stats == old(stats)
      ensures date.Some? && salle.Some? && date.value in old(rows) && Occupied(old(rows)[date.value], salle.value) ==>
        var row := old(rows)[date.value];
        reply == Ok(()) &&
        rows == old(rows)[date.value := SetCell(row, salle.value, None)] &&
        stats == Release(old(stats), owner, Cell(row, salle.value), salle.value)
    {
      if date.None? || salle.None? {
        return Fail(400);
      }
      var d, r := date.value, salle.value;
      if d !in rows || !Truthy(Cell(rows[d], r)) {
        return Fail(404);
      }
      var oldLabel := Cell(rows[d], r);
      stats := Release(stats, owner, oldLabel, r);
      rows := rows[d := SetCell(rows[d], r, None)];
      ResetPreservesConsistency(old(rows), old(stats), owner, d, r);
      return Ok(());
    }

    /** `update_salle_state`: validates the room name, normalises the state,
        creates the day's row when missing and stores the state; closing or
        unusing a room also evicts and releases its occupant. */
    method UpdateSalleState(date: Option<Date>, salle: Option<string>, state: Option<Option<string>>)
      returns (reply: Reply<StateChange>)
      requires Valid()
      modifies this
      ensures Valid()
      ensures date.None? || salle.None? || state.None? || FromKey(salle.value).None? ==>
        reply == Fail(400) && rows == old(rows) && stats == old(stats)
      ensures date.Some? && salle.Some? && state.Some? && FromKey(salle.value).Some? ==>
        var d, r, st := date.value, FromKey(salle.value).value, NormaliseState(state.value);
        var row := SetState(RowOrEmpty(old(rows), d), r, st);
        (Unavailable(st) ==>
          rows == old(rows)[d := SetCell(row, r, None)] &&
          stats == Release(old(stats), owner, Cell(row, r), r)) &&
        (!Unavailable(st) ==> rows == old(rows)[d := row] && stats == old(stats)) &&
        reply == Ok(StateChange(d, r, st, rows[d]))
    {
      if date.None? || salle.None? || state.None? {
        return Fail(400);
      }
      var st := NormaliseState(state.value);
      var room := FromKey(salle.value);
      if room.None? {
        return Fail(400);
      }
      var d, r := date.value, room.value;
      var stored := StoreState(d, r, st);
      return Ok(StateChange(d, r, st, stored));
    }

    /** The write half of `update_salle_state`: the state goes into the day's
        row (created when missing); an unavailable room also loses its
        occupant, who is released. */
    method StoreState(d: Date, r: Room, st: RoomState) returns (stored: DayRow)
      requires Valid()
      modifies this
      ensures Valid()
      ensures var row := SetState(RowOrEmpty(old(rows), d), r, st);
        (Unavailable(st) ==>
          rows == old(rows)[d := SetCell(row, r, None)] &&
          stats == Release(old(stats), owner, Cell(row, r), r)) &&
        (!Unavailable(st) ==> rows == old(rows)[d := row] && stats == old(stats))
      ensures d in rows && stored == rows[d]
    {
      StateChangePreservesConsistency(rows, stats, owner, d, r, st);
      var row := SetState(RowOrEmpty(rows, d), r, st);
      if Unavailable(st) {
        stats := Release(stats, owner, Cell(row, r), r);
        row := SetCell(row, r, None);
      }
      rows := rows[d := row];
      stored := rows[d];
    }

    /** `get_salle_states`: the state of every room on a date; a date without
        a row reports every room as open. */
    method GetSalleStates(date: Date) returns (states: map<Room, RoomState>)
      ensures forall r: Room :: r in states && states[r] == StateOf(RowOrEmpty(rows, date), r)
    {
      SalleNamesEnumerates();
      if date !in rows {
        return map r | r in SalleNames :: Open;
      }
      var row := rows[date];
      states := map[];
      var i := 0;
      while i < |SalleNames|
        invariant 0 <= i <= |SalleNames|
        invariant forall k :: 0 <= k < i ==> SalleNames[k] in states && states[SalleNames[k]] == StateOf(row, SalleNames[k])
      {
        states := states[SalleNames[i] := StateOf(row, SalleNames[i])];
        i := i + 1;
      }
      forall r: Room
        ensures r in states && states[r] == StateOf(row, r)
      {
        assert r in SalleNames;
        var k :| 0 <= k < |SalleNames| && SalleNames[k] == r;
      }
    }

    /** `check_nurse_availability`: the first room holding the label that day,
        the closed or unused rooms, and whether the nurse may be placed there. */
    method CheckNurseAvailability(q: AvailabilityQuery) returns (reply: Reply<Availability>)
      ensures q.ByBody? && (q.date.None? || (q.lbl.None? && q.infirmierId.None?)) ==> reply == Fail(400)
      ensures reply.Ok? ==>
        var lbl := QueryLabel(q, nurses);
        var current := if q.ByQuery? then q.currentRoom else q.sourceSalle;
        var a := reply.body;
        (q.date.None? || q.date.value !in rows ==> a == Availability(true, None, [], None)) &&
        (q.date.Some? && q.date.value in rows ==>
          var row := rows[q.date.value];
          a.assignedRoom == FirstHolder(row, lbl, SalleNames) &&
          a.sallesFermees == Some(ClosedRooms(row, SalleNames))) &&
        (a.available <==> a.assignedRoom.None? || Some(Key(a.assignedRoom.value)) == current) &&
        (a.sallesOccupees != [] <==> !a.available) &&
        (a.sallesOccupees != [] ==> a.sallesOccupees == [a.assignedRoom.value])
      ensures q.ByQuery? || (q.date.Some? && (q.lbl.Some? || q.infirmierId.Some?)) ==> reply.Ok?
    {
      if q.ByBody? && (q.date.None? || (q.lbl.None? && q.infirmierId.None?)) {
        return Fail(400);
      }
      var lbl := QueryLabel(q, nurses);
      var current := if q.ByQuery? then q.currentRoom else q.sourceSalle;
      if q.date.None? || q.date.value !in rows {
        return Ok(Availability(true, None, [], None));
      }
      var row := rows[q.date.value];
      var found := FindHolder(row, lbl, SalleNames);
      var closed := ClosedList(row, SalleNames);
      var available := found.None? || Some(Key(found.value)) == current;
      var occupied := if found.Some? && Some(Key(found.value)) != current then [found.value] else [];
      return Ok(Availability(available, found, occupied, Some(closed)));
    }

    /** `get_emplois_du_temps_semaine`: both bounds are required; every row
        between them, by increasing date, with its labels and doublons. */
    method WeekSchedule(debut: Option<Date>, fin: Option<Date>) returns (reply: Reply<seq<DayView>>)
      ensures debut.None? || fin.None? ==> reply == Fail(400)
      ensures debut.Some? && fin.Some? ==>
        var ds := DatesBetween(rows, debut.value, fin.value);
        reply.Ok? && |reply.body| == |ds| &&
        forall k :: 0 <= k < |ds| ==> DayViewOf(reply.body[k], ds[k], rows[ds[k]])
    {
      if debut.None? || fin.None? {
        return Fail(400);
      }
      var emplois := DatesBetween(rows, debut.value, fin.value);
      var result: seq<DayView> := [];
      var i := 0;
      while i < |emplois|
        invariant 0 <= i <= |emplois|
        invariant |result| == i
        invariant forall k :: 0 <= k < i ==> DayViewOf(result[k], emplois[k], rows[emplois[k]])
      {
        var row := rows[emplois[i]];
        var labels, doublons := DayDoublons(row);
        result := result + [DayView(emplois[i], row, labels, doublons)];
        i := i + 1;
      }
      return Ok(result);
    }
  }

  /** The label the availability check looks for: the given one, or, in a
      JSON body without one, the label of the nurse named by id. */
  function QueryLabel(q: AvailabilityQuery, nurses: seq<Nurse>): (lbl: Option<string>)
    ensures q.lbl.Some? ==> lbl == q.lbl
    ensures q.ByQuery? ==> lbl == q.lbl
  {
    if q.lbl.Some? || q.ByQuery? then q.lbl
    else if q.infirmierId.None? then None
    else
      match NurseById(nurses, q.infirmierId.value)
      case Some(n) => Some(NurseLabel(n))
      case None => None
  }
}
