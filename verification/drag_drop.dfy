/** Dragging nurses onto the planning: the payload a drag carries, the gating of
    drops on closed or unused rooms, the dispatch of a drop, the two versions of
    the move between cells, and the marking of the days a nurse is already busy. */
module DragDrop {
  import opened Wrappers
  import opened Dom

  // ----- the payload -----

  /** The JSON a drag carries, as `JSON.parse` gives it back. A nurse dragged
      from the list carries `id`, `nom` and `prenom`; a nurse dragged out of a
      cell carries `label`, `sourceDate`, `sourceRoom` and `isFromCell`. A field
      the object lacks, or holds as `null`, is `None`. */
  datatype Payload = Payload(
    id: Option<string>, nom: Option<string>, prenom: Option<string>,
    lbl: Option<string>, sourceDate: Option<string>, sourceRoom: Option<string>,
    isFromCell: bool)

  /** `handleDragStart` on a list item: no payload unless `data-id`,
      `data-nom` and `data-prenom` are all present and non-empty. */
  function ListPayload(attrs: map<string, string>): (p: Option<Payload>)
    ensures p.Some? <==>
      Given(Lookup(attrs, "data-id")) && Given(Lookup(attrs, "data-nom")) && Given(Lookup(attrs, "data-prenom"))
    ensures p.Some? ==> !p.value.isFromCell && p.value.id == Lookup(attrs, "data-id")
    ensures p.Some? ==> p.value.nom == Lookup(attrs, "data-nom") && p.value.prenom == Lookup(attrs, "data-prenom")
  {
    var id, nom, prenom := Lookup(attrs, "data-id"), Lookup(attrs, "data-nom"), Lookup(attrs, "data-prenom");
    if !Given(id) || !Given(nom) || !Given(prenom) then None
    else Some(Payload(id, nom, prenom, None, None, None, false))
  }

  /** `handleInfirmierDragStart` on a nurse placed in a cell: the label of the
      placed nurse and the date and room of its cell, and no `id`. */
  function CellPayload(lbl: Option<string>, sourceAttrs: map<string, string>): (p: Payload)
    ensures p.isFromCell && p.id.None? && p.lbl == lbl
    ensures p.sourceDate == Lookup(sourceAttrs, "data-date") && p.sourceRoom == Lookup(sourceAttrs, "data-room")
  {
    Payload(None, None, None, lbl, Lookup(sourceAttrs, "data-date"), Lookup(sourceAttrs, "data-room"), true)
  }

  /** `handleDragStart`: the payload of a list item, and the `dragging` class
      when there is one. */
  method HandleDragStart(item: Element) returns (p: Option<Payload>)
    modifies item`classes
    ensures p == ListPayload(item.attrs)
    ensures item.classes == if p.Some? then old(item.classes) + {"dragging"} else old(item.classes)
  {
    p := ListPayload(item.attrs);
    if p.Some? {
      item.classes := item.classes + {"dragging"};
    }
  }

  /** `handleInfirmierDragStart`: the payload of a placed nurse inside `sourceCell`. */
  method HandleInfirmierDragStart(placed: Element, sourceCell: Element) returns (p: Payload)
    modifies placed`classes
    ensures p == CellPayload(Lookup(placed.attrs, "data-label"), sourceCell.attrs)
    ensures placed.classes == old(placed.classes) + {"dragging"}
  {
    p := CellPayload(placed.Attr("data-label"), sourceCell.attrs);
    placed.classes := placed.classes + {"dragging"};
  }

  // ----- hovering -----

  /** A cell of a closed or unused room. */
  predicate Blocked(classes: set<string>) {
    "room-close" in classes || "room-unuse" in classes
  }

  /** The classes of a cell a drag hovers over: `drag-not-allowed` on a blocked
      room, `drag-over` otherwise. */
  function HoverClasses(classes: set<string>): (r: set<string>)
    ensures Blocked(classes) ==> r == classes + {"drag-not-allowed"}
    ensures !Blocked(classes) ==> r == classes + {"drag-over"}
  {
    if Blocked(classes) then classes + {"drag-not-allowed"} else classes + {"drag-over"}
  }

  /** The classes of a cell the drag leaves. */
  function LeaveClasses(classes: set<string>): (r: set<string>)
    ensures "drag-over" !in r && "drag-not-allowed" !in r
    ensures forall c :: c != "drag-over" && c != "drag-not-allowed" ==> (c in r <==> c in classes)
  {
    classes - {"drag-over", "drag-not-allowed"}
  }

  /** Hovering then leaving leaves no trace, and never changes the room state. */
  lemma HoverThenLeave(classes: set<string>)
    ensures LeaveClasses(HoverClasses(classes)) == LeaveClasses(classes)
    ensures Blocked(HoverClasses(classes)) == Blocked(classes)
    ensures "drag-over" !in classes && "drag-not-allowed" !in classes ==>
      LeaveClasses(HoverClasses(classes)) == classes
  {
  }

  /** `handleDragOver`: the drop is allowed exactly on a room that is neither
      closed nor unused. */
  method HandleDragOver(cell: Element) returns (allowed: bool)
    modifies cell`classes
    ensures allowed <==> !Blocked(old(cell.classes))
    ensures cell.classes == HoverClasses(old(cell.classes))
  {
    if "room-close" in cell.classes || "room-unuse" in cell.classes {
      cell.classes := cell.classes + {"drag-not-allowed"};
      return false;
    }
    cell.classes := cell.classes + {"drag-over"};
    return true;
  }

  /** `handleDragLeave`. */
  method HandleDragLeave(cell: Element)
    modifies cell`classes
    ensures cell.classes == LeaveClasses(old(cell.classes))
  {
    cell.classes := cell.classes - {"drag-over", "drag-not-allowed"};
  }

  // ----- the drop -----

  /** What a drop leads to. */
  datatype DropOutcome =
    | Refused                                       // a closed or unused room
    | Failed                                        // an error raised before any dispatch
    | SameCell                                      // a placed nurse dropped back on its own cell
    | MoveTo(p: Payload, date: string, room: string)   // `moveInfirmierBetweenCells`
    | AssignTo(p: Payload, date: string, room: string) // `assignInfirmierToCell`

  /** The dispatch once the payload is accepted, on the target's `data-date`
      and `data-room`. */
  function Dispatch(p: Payload, date: Option<string>, room: Option<string>): (o: DropOutcome)
    ensures o.Failed? <==> !Given(date) || !Given(room)
    ensures o.SameCell? <==> Given(date) && Given(room) && p.isFromCell && p.sourceDate == date && p.sourceRoom == room
    ensures o.MoveTo? <==> Given(date) && Given(room) && p.isFromCell && !(p.sourceDate == date && p.sourceRoom == room)
    ensures o.AssignTo? <==> Given(date) && Given(room) && !p.isFromCell
    ensures (o.MoveTo? || o.AssignTo?) ==> o.p == p && Some(o.date) == date && Some(o.room) == room
  {
    if !Given(date) || !Given(room) then Failed
    else if p.isFromCell then
      if p.sourceDate == date && p.sourceRoom == room then SameCell else MoveTo(p, date.value, room.value)
    else AssignTo(p, date.value, room.value)
  }

  /** `handleDrop` as written: the payload is refused unless it has an `id`. */
  function DropAsWritten(classes: set<string>, attrs: map<string, string>, data: Option<Payload>): (o: DropOutcome)
    ensures o.Refused? <==> Blocked(classes)
  {
    if Blocked(classes) then Refused
    else if data.None? || !Given(data.value.id) then Failed
    else Dispatch(data.value, Lookup(attrs, "data-date"), Lookup(attrs, "data-room"))
  }

  /** A drag out of a cell never reaches the move: `handleDrop` as written
      refuses every payload `handleInfirmierDragStart` builds. */
  lemma CellDragNeverMoves(classes: set<string>, attrs: map<string, string>, lbl: Option<string>, source: map<string, string>)
    ensures var o := DropAsWritten(classes, attrs, Some(CellPayload(lbl, source)));
      o == Refused || o == Failed
  {
  }

  /** The payload names its nurse: a placed nurse by its label, a list item by its id. */
  predicate Identified(p: Payload) {
    if p.isFromCell then Given(p.lbl) else Given(p.id)
  }

  /** `handleDrop` with the payload check that fits both kinds of drag. */
  function Drop(classes: set<string>, attrs: map<string, string>, data: Option<Payload>): (o: DropOutcome)
    ensures o.Refused? <==> Blocked(classes)
    ensures o.Failed? <==>
      !Blocked(classes) && (data.None? || !Identified(data.value)
        || !Given(Lookup(attrs, "data-date")) || !Given(Lookup(attrs, "data-room")))
    ensures (o.MoveTo? || o.AssignTo? || o.SameCell?) ==> data.Some? && Identified(data.value)
  {
    if Blocked(classes) then Refused
    else if data.None? || !Identified(data.value) then Failed
    else Dispatch(data.value, Lookup(attrs, "data-date"), Lookup(attrs, "data-room"))
  }

  /** A labelled nurse dragged out of a cell onto another open cell is moved
      there; dropped back on its own cell, nothing happens. */
  lemma CellDragMoves(classes: set<string>, attrs: map<string, string>, lbl: Option<string>, source: map<string, string>)
    requires !Blocked(classes) && Given(lbl)
    requires Given(Lookup(attrs, "data-date")) && Given(Lookup(attrs, "data-room"))
    ensures var date, room := Lookup(attrs, "data-date"), Lookup(attrs, "data-room");
      var o := Drop(classes, attrs, Some(CellPayload(lbl, source)));
      if Lookup(source, "data-date") == date && Lookup(source, "data-room") == room then o == SameCell
      else o == MoveTo(CellPayload(lbl, source), date.value, room.value)
  {
  }

  /** On drags from the list both versions of the drop agree, and a complete
      list item dropped on an open cell with a date and a room is assigned there. */
  lemma ListDragAssigns(classes: set<string>, attrs: map<string, string>, item: map<string, string>)
    requires ListPayload(item).Some?
    ensures Drop(classes, attrs, ListPayload(item)) == DropAsWritten(classes, attrs, ListPayload(item))
    ensures !Blocked(classes) && Given(Lookup(attrs, "data-date")) && Given(Lookup(attrs, "data-room")) ==>
      Drop(classes, attrs, ListPayload(item))
        == AssignTo(ListPayload(item).value, Lookup(attrs, "data-date").value, Lookup(attrs, "data-room").value)
  {
  }

  /** `handleDrop`: hover classes cleared, the drop decided, and `loading`
      removed when it fails. */
  method HandleDrop(cell: Element, data: Option<Payload>) returns (o: DropOutcome)
    modifies cell`classes
    ensures o == Drop(old(cell.classes), cell.attrs, data)
    ensures cell.classes == if o.Failed? then LeaveClasses(old(cell.classes)) - {"loading"}
                            else LeaveClasses(old(cell.classes))
  {
    cell.classes := cell.classes - {"drag-over", "drag-not-allowed"};
    if "room-close" in cell.classes || "room-unuse" in cell.classes {
      return Refused;
    }
    var date, room := cell.Attr("data-date"), cell.Attr("data-room");
    if data.None? || !Identified(data.value) || !Given(date) || !Given(room) {
      cell.classes := cell.classes - {"loading"};
      return Failed;
    }
    var p := data.value;
    if p.isFromCell {
      if p.sourceDate == date && p.sourceRoom == room {
        return SameCell;
      }
      return MoveTo(p, date.value, room.value);
    }
    return AssignTo(p, date.value, room.value);
  }

  // ----- the requests sent to the server -----

  datatype Request =
    | CheckAvailability(id: Option<string>, checkDate: string, currentRoom: Option<string>)
    | AssignById(id: Option<string>, date: Option<string>, salle: Option<string>)
    | Unassign(date: Option<string>, salle: Option<string>)        // `infirmierId: 0`
    | AssignByLabel(lbl: Option<string>, date: Option<string>, salle: Option<string>)
    | ResetAssignment(date: Option<string>, salle: Option<string>)

  /** `assignInfirmierToCell`: one request; the cell shows the nurse once the
      server accepts it. */
  method AssignInfirmierToCell(p: Payload, cell: Element, date: string, room: string, ok: bool)
    returns (reqs: seq<Request>)
    modifies cell`classes, cell`hasEvent
    ensures reqs == [AssignById(p.id, Some(date), Some(room))]
    ensures cell.hasEvent == (old(cell.hasEvent) || ok)
    ensures cell.classes == old(cell.classes) - {"loading"}
  {
    cell.classes := cell.classes + {"loading"};
    reqs := [AssignById(p.id, Some(date), Some(room))];
    if ok {
      cell.hasEvent := true;
    }
    cell.classes := cell.classes - {"loading"};
  }

  /** What the server says of a nurse on a date: unreachable (a failed
      response), or available or not, with the room holding them. */
  datatype Availability = Unreachable | Reply(available: bool, assignedRoom: Option<string>)

  /** A move within one date between two rooms asks first whether the nurse is free. */
  predicate NeedsCheck(targetDate: string, targetRoom: string, sourceDate: Option<string>, sourceRoom: Option<string>) {
    sourceDate == Some(targetDate) && sourceRoom != Some(targetRoom)
  }

  /** The answer stops the move: no answer, or the nurse is busy elsewhere
      than in the source room. */
  predicate StopsMove(answer: Availability, sourceRoom: Option<string>) {
    answer.Unreachable? || (!answer.available && answer.assignedRoom != sourceRoom)
  }

  /** The requests of `moveInfirmierBetweenCells` (drag-and-drop version): the
      availability check when needed, then the removal from the source and the
      assignment to the target unless the check stops the move. */
  function MoveRequests(p: Payload, targetDate: string, targetRoom: string,
                        sourceDate: Option<string>, sourceRoom: Option<string>, answer: Availability): (reqs: seq<Request>)
  {
    var check := if NeedsCheck(targetDate, targetRoom, sourceDate, sourceRoom)
      then [CheckAvailability(p.id, targetDate, sourceRoom)] else [];
    if NeedsCheck(targetDate, targetRoom, sourceDate, sourceRoom) && StopsMove(answer, sourceRoom) then check
    else check + [Unassign(sourceDate, sourceRoom), AssignById(p.id, Some(targetDate), Some(targetRoom))]
  }

  /** The move asks for availability exactly when source and target share the
      date and differ in room, and it writes nothing exactly when that answer
      stops it; otherwise it removes from the source before assigning the target. */
  lemma MoveRequestsSpec(p: Payload, targetDate: string, targetRoom: string,
                         sourceDate: Option<string>, sourceRoom: Option<string>, answer: Availability)
    ensures var reqs := MoveRequests(p, targetDate, targetRoom, sourceDate, sourceRoom, answer);
      var needs := NeedsCheck(targetDate, targetRoom, sourceDate, sourceRoom);
      ((exists i :: 0 <= i < |reqs| && reqs[i].CheckAvailability?) <==> needs)
      && ((forall i :: 0 <= i < |reqs| ==> reqs[i].CheckAvailability?) <==> needs && StopsMove(answer, sourceRoom))
      && (!(needs && StopsMove(answer, sourceRoom)) ==>
            reqs[|reqs| - 2..] == [Unassign(sourceDate, sourceRoom), AssignById(p.id, Some(targetDate), Some(targetRoom))])
  {
    var reqs := MoveRequests(p, targetDate, targetRoom, sourceDate, sourceRoom, answer);
    var needs := NeedsCheck(targetDate, targetRoom, sourceDate, sourceRoom);
    if needs {
      assert reqs[0].CheckAvailability?;
    }
    if !(needs && StopsMove(answer, sourceRoom)) {
      assert !reqs[|reqs| - 1].CheckAvailability?;
    }
  }

  /** `moveInfirmierBetweenCells` of the drag-and-drop module: the requests,
      then the nurse shown on the target and removed from the source cell. */
  method MoveBetweenCells(p: Payload, targetCell: Element, targetDate: string, targetRoom: string,
                          sourceDate: Option<string>, sourceRoom: Option<string>,
                          answer: Availability, sourceCell: Option<Element>)
    returns (reqs: seq<Request>)
    modifies targetCell`hasEvent, if sourceCell.Some? then {sourceCell.value} else {}
    ensures reqs == MoveRequests(p, targetDate, targetRoom, sourceDate, sourceRoom, answer)
    ensures NeedsCheck(targetDate, targetRoom, sourceDate, sourceRoom) && StopsMove(answer, sourceRoom) ==>
      targetCell.hasEvent == old(targetCell.hasEvent)
      && (sourceCell.Some? ==> sourceCell.value.hasEvent == old(sourceCell.value.hasEvent))
    ensures !(NeedsCheck(targetDate, targetRoom, sourceDate, sourceRoom) && StopsMove(answer, sourceRoom)) ==>
      (sourceCell.Some? ==> !sourceCell.value.hasEvent)
      && (sourceCell != Some(targetCell) ==> targetCell.hasEvent)
    ensures sourceCell.Some? ==>
      sourceCell.value.classes == old(sourceCell.value.classes) && sourceCell.value.attrs == old(sourceCell.value.attrs)
  {
    reqs := [];
    if sourceDate == Some(targetDate) && sourceRoom != Some(targetRoom) {
      reqs := [CheckAvailability(p.id, targetDate, sourceRoom)];
      if answer.Unreachable? || (!answer.available && answer.assignedRoom != sourceRoom) {
        return;
      }
    }
    reqs := reqs + [Unassign(sourceDate, sourceRoom), AssignById(p.id, Some(targetDate), Some(targetRoom))];
    targetCell.hasEvent := true;
    if sourceCell.Some? {
      sourceCell.value.hasEvent := false;
    }
  }

  /** `moveInfirmierBetweenCells` of the planning module: reset the source,
      then, only when the reset succeeds, assign the label to the target. */
  method MoveBetweenCellsByLabel(p: Payload, targetCell: Element, targetDate: string, targetRoom: string,
                                 sourceDate: Option<string>, sourceRoom: Option<string>,
                                 resetOk: bool, assignOk: bool)
    returns (reqs: seq<Request>, moved: bool)
    modifies targetCell`classes
    ensures reqs == [ResetAssignment(sourceDate, sourceRoom)]
      + (if resetOk then [AssignByLabel(p.lbl, Some(targetDate), Some(targetRoom))] else [])
    ensures moved <==> resetOk && assignOk
    ensures targetCell.classes == old(targetCell.classes) - {"loading"}
  {
    targetCell.classes := targetCell.classes + {"loading"};
    reqs := [ResetAssignment(sourceDate, sourceRoom)];
    moved := false;
    if resetOk {
      reqs := reqs + [AssignByLabel(p.lbl, Some(targetDate), Some(targetRoom))];
      moved := assignOk;
    }
    targetCell.classes := targetCell.classes - {"loading"};
  }

  // ----- the days a nurse is already busy -----

  /** The distinct values of `data-date`, in the order of their first cell
      (`new Set(...)` over the cells that have the attribute). */
  function UniqueDates(dates: seq<Option<string>>, seen: seq<string>): (r: seq<string>)
    requires forall i, j :: 0 <= i < j < |seen| ==> seen[i] != seen[j]
    ensures |seen| <= |r| && r[..|seen|] == seen
    ensures forall i, j :: 0 <= i < j < |r| ==> r[i] != r[j]
    ensures forall d :: d in r <==> d in seen || Some(d) in dates
    decreases |dates|
  {
    if dates == [] then seen
    else if dates[0].None? || dates[0].value in seen then UniqueDates(dates[1..], seen)
    else UniqueDates(dates[1..], seen + [dates[0].value])
  }

  function DatesOf(cells: seq<Element>): (r: seq<Option<string>>)
    reads cells`attrs
    ensures |r| == |cells|
    ensures forall i :: 0 <= i < |cells| ==> r[i] == Lookup(cells[i].attrs, "data-date")
  {
    if cells == [] then [] else [Lookup(cells[0].attrs, "data-date")] + DatesOf(cells[1..])
  }

  /** The `current_room` sent with the check of a date: the source room on the
      source date, none otherwise. */
  function CurrentRoom(date: string, sourceDate: Option<string>, sourceRoom: Option<string>): Option<string> {
    if Some(date) == sourceDate then sourceRoom else None
  }

  /** The number of leading dates the server answered: the loop stops at the
      first check that fails. */
  function Answered(dates: seq<string>, replies: map<(string, Option<string>), bool>,
                    sourceDate: Option<string>, sourceRoom: Option<string>): (n: nat)
    ensures n <= |dates|
    ensures forall i :: 0 <= i < n ==> (dates[i], CurrentRoom(dates[i], sourceDate, sourceRoom)) in replies
    ensures n < |dates| ==> (dates[n], CurrentRoom(dates[n], sourceDate, sourceRoom)) !in replies
  {
    if dates == [] || (dates[0], CurrentRoom(dates[0], sourceDate, sourceRoom)) !in replies then 0
    else 1 + Answered(dates[1..], replies, sourceDate, sourceRoom)
  }

  /** A cell to mark for `date`: one of that date, other than the source cell. */
  predicate Hit(attrs: map<string, string>, date: string, sourceDate: Option<string>, sourceRoom: Option<string>) {
    Lookup(attrs, "data-date") == Some(date)
    && !(Some(date) == sourceDate && Lookup(attrs, "data-room") == sourceRoom)
  }

  /** A cell marked after the dates `ds` are checked: its date is among them and
      the server says the nurse is not available then, and it is not the source cell. */
  predicate MarkedBy(attrs: map<string, string>, ds: seq<string>, replies: map<(string, Option<string>), bool>,
                     sourceDate: Option<string>, sourceRoom: Option<string>) {
    var d := Lookup(attrs, "data-date");
    d.Some? && d.value in ds && Hit(attrs, d.value, sourceDate, sourceRoom)
    && (d.value, CurrentRoom(d.value, sourceDate, sourceRoom)) in replies
    && !replies[(d.value, CurrentRoom(d.value, sourceDate, sourceRoom))]
  }

  /** The classes of a cell once the marking is done. */
  function MarkClasses(classes: set<string>, marked: bool): (r: set<string>)
    ensures "nurse-unavailable" in r <==> marked
    ensures forall c :: c != "nurse-unavailable" ==> (c in r <==> c in classes)
  {
    if marked then classes - {"nurse-unavailable"} + {"nurse-unavailable"} else classes - {"nurse-unavailable"}
  }

  /** The first loop: every cell loses `nurse-unavailable`. */
  method ClearUnavailable(cells: seq<Element>)
    modifies cells`classes
    ensures forall c :: c in cells ==> c.classes == old(c.classes) - {"nurse-unavailable"}
  {
    var i := 0;
    ghost var done: set<Element> := {};
    while i < |cells|
      invariant 0 <= i <= |cells|
      invariant done == set k | 0 <= k < i :: cells[k]
      invariant forall c :: c in cells ==>
        c.classes == if c in done then old(c.classes) - {"nurse-unavailable"} else old(c.classes)
    {
      cells[i].classes := cells[i].classes - {"nurse-unavailable"};
      done := done + {cells[i]};
      i := i + 1;
    }
  }

  /** The inner loop: every cell of `date` but the source cell gains `nurse-unavailable`. */
  method MarkDate(cells: seq<Element>, date: string, sourceDate: Option<string>, sourceRoom: Option<string>)
    modifies cells`classes
    ensures forall c :: c in cells ==>
      c.classes == if Hit(c.attrs, date, sourceDate, sourceRoom) then old(c.classes) + {"nurse-unavailable"} else old(c.classes)
  {
    var i := 0;
    ghost var done: set<Element> := {};
    while i < |cells|
      invariant 0 <= i <= |cells|
      invariant done == set k | 0 <= k < i :: cells[k]
      invariant forall c :: c in cells ==>
        c.classes == if c in done && Hit(c.attrs, date, sourceDate, sourceRoom) then old(c.classes) + {"nurse-unavailable"}
                     else old(c.classes)
    {
      var cell := cells[i];
      if cell.Attr("data-date") == Some(date) && !(Some(date) == sourceDate && cell.Attr("data-room") == sourceRoom) {
        cell.classes := cell.classes + {"nurse-unavailable"};
      }
      done := done + {cell};
      i := i + 1;
    }
  }

  /** Each cell of `cells` holds its class list of `orig`, marked exactly
      when the dates `ds` mark it. */
  ghost predicate MarkedUpTo(cells: seq<Element>, orig: map<Element, set<string>>, ds: seq<string>,
                             replies: map<(string, Option<string>), bool>,
                             sourceDate: Option<string>, sourceRoom: Option<string>)
    reads cells`classes, cells`attrs
  {
    forall c :: c in cells ==>
      c in orig && c.classes == MarkClasses(orig[c], MarkedBy(c.attrs, ds, replies, sourceDate, sourceRoom))
  }

  /** One more checked date marks the cells it hits when the nurse is busy then. */
  lemma MarkedByStep(attrs: map<string, string>, dates: seq<string>, k: nat, replies: map<(string, Option<string>), bool>,
                     sourceDate: Option<string>, sourceRoom: Option<string>)
    requires k < |dates|
    requires (dates[k], CurrentRoom(dates[k], sourceDate, sourceRoom)) in replies
    ensures MarkedBy(attrs, dates[..k + 1], replies, sourceDate, sourceRoom) <==>
      MarkedBy(attrs, dates[..k], replies, sourceDate, sourceRoom)
      || (Hit(attrs, dates[k], sourceDate, sourceRoom) && !replies[(dates[k], CurrentRoom(dates[k], sourceDate, sourceRoom))])
  {
    assert dates[..k + 1] == dates[..k] + [dates[k]];
  }

  /** One turn of the loop over the dates. */
  method MarkStep(cells: seq<Element>, ghost orig: map<Element, set<string>>, dates: seq<string>, k: nat,
                  replies: map<(string, Option<string>), bool>, sourceDate: Option<string>, sourceRoom: Option<string>)
    requires k < |dates| && (dates[k], CurrentRoom(dates[k], sourceDate, sourceRoom)) in replies
    requires MarkedUpTo(cells, orig, dates[..k], replies, sourceDate, sourceRoom)
    modifies cells`classes
    ensures MarkedUpTo(cells, orig, dates[..k + 1], replies, sourceDate, sourceRoom)
  {
    var date := dates[k];
    if !replies[(date, CurrentRoom(date, sourceDate, sourceRoom))] {
      MarkDate(cells, date, sourceDate, sourceRoom);
    }
    forall c | c in cells
      ensures c in orig && c.classes == MarkClasses(orig[c], MarkedBy(c.attrs, dates[..k + 1], replies, sourceDate, sourceRoom))
    {
      MarkedByStep(c.attrs, dates, k, replies, sourceDate, sourceRoom);
    }
  }

  /** `markUnavailableDays`: clear every mark, then for each distinct date ask
      the server (with the source room on the source date) and mark the cells
      of the dates where the nurse is not available, the source cell excepted.
      `replies` holds the server's answers; a check without one fails and ends
      the loop. */
  method MarkUnavailableDays(cells: seq<Element>, sourceDate: Option<string>, sourceRoom: Option<string>,
                             replies: map<(string, Option<string>), bool>)
    modifies cells`classes
    ensures var dates := UniqueDates(DatesOf(cells), []);
      var n := Answered(dates, replies, sourceDate, sourceRoom);
      forall c :: c in cells ==>
        c.classes == MarkClasses(old(c.classes), MarkedBy(c.attrs, dates[..n], replies, sourceDate, sourceRoom))
  {
    ghost var orig := map c | c in cells :: c.classes;
    ClearUnavailable(cells);
    var dates := UniqueDates(DatesOf(cells), []);
    MarkedUpToStart(cells, orig, dates, replies, sourceDate, sourceRoom);
    MarkAnswered(cells, orig, dates, replies, sourceDate, sourceRoom);
  }

  /** The loop over the dates, up to the first one the server does not answer. */
  method MarkAnswered(cells: seq<Element>, ghost orig: map<Element, set<string>>, dates: seq<string>,
                      replies: map<(string, Option<string>), bool>, sourceDate: Option<string>, sourceRoom: Option<string>)
    requires MarkedUpTo(cells, orig, dates[..0], replies, sourceDate, sourceRoom)
    modifies cells`classes
    ensures MarkedUpTo(cells, orig, dates[..Answered(dates, replies, sourceDate, sourceRoom)], replies, sourceDate, sourceRoom)
  {
    var k := 0;
    while k < |dates| && (dates[k], CurrentRoom(dates[k], sourceDate, sourceRoom)) in replies
      invariant 0 <= k <= |dates|
      invariant forall i :: 0 <= i < k ==> (dates[i], CurrentRoom(dates[i], sourceDate, sourceRoom)) in replies
      invariant MarkedUpTo(cells, orig, dates[..k], replies, sourceDate, sourceRoom)
    {
      MarkStep(cells, orig, dates, k, replies, sourceDate, sourceRoom);
      k := k + 1;
    }
    AnsweredAt(dates, replies, sourceDate, sourceRoom, k);
  }

  /** Once the marks are cleared, no date has marked anything yet. */
  lemma MarkedUpToStart(cells: seq<Element>, orig: map<Element, set<string>>, dates: seq<string>,
                        replies: map<(string, Option<string>), bool>, sourceDate: Option<string>, sourceRoom: Option<string>)
    requires forall c :: c in cells ==> c in orig && c.classes == orig[c] - {"nurse-unavailable"}
    ensures MarkedUpTo(cells, orig, dates[..0], replies, sourceDate, sourceRoom)
  {
  }

  /** The loop stops exactly after the answered dates. */
  lemma {:induction false} AnsweredAt(dates: seq<string>, replies: map<(string, Option<string>), bool>,
                                      sourceDate: Option<string>, sourceRoom: Option<string>, k: nat)
    requires k <= |dates|
    requires forall i :: 0 <= i < k ==> (dates[i], CurrentRoom(dates[i], sourceDate, sourceRoom)) in replies
    requires k < |dates| ==> (dates[k], CurrentRoom(dates[k], sourceDate, sourceRoom)) !in replies
    ensures Answered(dates, replies, sourceDate, sourceRoom) == k
    decreases k
  {
    if k > 0 {
      AnsweredAt(dates[1..], replies, sourceDate, sourceRoom, k - 1);
    }
  }

  /** When the server answers for every date, a cell ends up marked exactly when
      the nurse is not available on its date and it is not the source cell. */
  lemma MarkedWhenAllAnswered(cells: seq<Element>, c: Element, sourceDate: Option<string>, sourceRoom: Option<string>,
                              replies: map<(string, Option<string>), bool>)
    requires c in cells
    requires var dates := UniqueDates(DatesOf(cells), []);
      Answered(dates, replies, sourceDate, sourceRoom) == |dates|
    ensures var dates := UniqueDates(DatesOf(cells), []);
      var d := Lookup(c.attrs, "data-date");
      MarkedBy(c.attrs, dates[..|dates|], replies, sourceDate, sourceRoom) <==>
        d.Some? && Hit(c.attrs, d.value, sourceDate, sourceRoom)
        && (d.value, CurrentRoom(d.value, sourceDate, sourceRoom)) in replies
        && !replies[(d.value, CurrentRoom(d.value, sourceDate, sourceRoom))]
  {
    var dates := UniqueDates(DatesOf(cells), []);
    assert dates[..|dates|] == dates;
    var d := Lookup(c.attrs, "data-date");
    if d.Some? {
      var i :| 0 <= i < |cells| && cells[i] == c;
      assert DatesOf(cells)[i] == d;
    }
  }
}
