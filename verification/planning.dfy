/** The weekly planning page: week arithmetic, the room keys of the row headers,
    the room-state classes of a cell, and the loop that opens, closes or retires
    a room for the whole week. */
module Planning {
  import opened Wrappers
  import opened Text
  import opened Calendar
  import opened Rooms
  import opened Dom

  // ----- week arithmetic -----

  /** The number of days since the Monday of the week: Sunday counts as the
      seventh day of the week, any other weekday `w` as `w - 1`. */
  function DaysSinceMonday(d: Day): (n: int)
    ensures 0 <= n <= 6
    ensures Weekday(d - n) == 1
  {
    if Weekday(d) == 0 then 6 else Weekday(d) - 1
  }

  /** `getWeekStartFromDate`: the Monday (at midnight) of the week holding `d`. */
  function WeekStart(d: Day): (m: Day)
    ensures Weekday(m) == 1
    ensures d - 6 <= m <= d
  {
    d - DaysSinceMonday(d)
  }

  /** Two Mondays less than a week apart are the same day. */
  lemma MondaysApart(a: Day, b: Day)
    requires Weekday(a) == 1 && Weekday(b) == 1
    requires a - 6 <= b <= a + 6
    ensures a == b
  {
  }

  /** The week start is the only Monday among `d` and the six days before it. */
  lemma WeekStartUnique(d: Day, m: Day)
    requires Weekday(m) == 1 && d - 6 <= m <= d
    ensures m == WeekStart(d)
  {
    MondaysApart(m, WeekStart(d));
  }

  /** Taking the week start of a week start changes nothing. */
  lemma WeekStartIdempotent(d: Day)
    ensures WeekStart(WeekStart(d)) == WeekStart(d)
  {
    WeekStartUnique(WeekStart(d), WeekStart(d));
  }

  /** Every day of a week, Monday to Sunday, has that week's Monday as week start. */
  lemma SameWeek(x: Day, d: Day)
    requires WeekStart(x) <= d <= WeekStart(x) + 6
    ensures WeekStart(d) == WeekStart(x)
  {
    WeekStartUnique(d, WeekStart(x));
  }

  /** Moving a Monday by a week either way lands on the Monday of that week. */
  lemma WeekStepKeepsMonday(m: Day)
    requires Weekday(m) == 1
    ensures WeekStart(m + 7) == m + 7 && WeekStart(m - 7) == m - 7
  {
    WeekStartUnique(m + 7, m + 7);
    WeekStartUnique(m - 7, m - 7);
  }

  /** Day `k` of a week (1 = Monday, ..., 5 = Friday) falls on weekday `k`. */
  lemma WorkdayOfWeek(m: Day, k: int)
    requires Weekday(m) == 1 && 1 <= k <= 5
    ensures Weekday(m + k - 1) == k
  {
  }

  // ----- dates as text -----

  /** Piece `i` of a destructured `split`, `undefined` when there is none. */
  function Piece(parts: seq<string>, i: nat): string {
    if i < |parts| then parts[i] else "undefined"
  }

  /** `formatDate`: the `-`-separated year, month and day of a date, written
      back as day, month and year joined by `/`. */
  function FormatDate(s: string): (r: string)
    ensures '-' !in s ==> r == "undefined/undefined/" + s
  {
    var parts := Split(s, '-');
    Piece(parts, 2) + "/" + Piece(parts, 1) + "/" + Piece(parts, 0)
  }

  /** `YYYY-MM-DD` becomes `DD/MM/YYYY`: the three pieces reversed, joined by `/`. */
  lemma FormatDateReorders(y: string, m: string, d: string)
    requires '-' !in y && '-' !in m && '-' !in d
    ensures FormatDate(y + "-" + m + "-" + d) == d + "/" + m + "/" + y
  {
    assert y + "-" + m + "-" + d == y + ['-'] + (m + ['-'] + d);
    SplitAfter(y, '-', m + ['-'] + d);
    SplitAfter(m, '-', d);
    assert Split(d, '-') == [d];
  }

  /** The date text of a day within years 0 to 9999 formats as its day, month
      and year, zero-padded. */
  lemma FormatDateKey(day: Day)
    requires 0 <= CivilOf(day).year <= 9999
    ensures var c := CivilOf(day);
      FormatDate(DateKey(day)) == Digits(c.day, 2) + "/" + Digits(c.month, 2) + "/" + Digits(c.year, 4)
  {
    var c := CivilOf(day);
    var y, m, d := Digits(c.year, 4), Digits(c.month, 2), Digits(c.day, 2);
    DigitsAreDigits(c.year, 4);
    DigitsAreDigits(c.month, 2);
    DigitsAreDigits(c.day, 2);
    assert '-' !in y && '-' !in m && '-' !in d;
    FormatDateReorders(y, m, d);
  }

  // ----- the room key of a row header -----

  predicate AllSpace(s: string) {
    forall i :: 0 <= i < |s| ==> IsSpace(s[i])
  }

  /** The room key `addRoomStateControlsToHeaders` derives from the trimmed
      text `t` of a row header: `Salle N` gives `salleN`, `Réveil N` gives
      `reveilN`, `Pré-induction` gives `perinduction`; any other header gets
      no key. */
  function RoomKeyOf(t: string): (k: Option<string>)
    ensures k.Some? <==> StartsWith(t, "Salle ") || StartsWith(t, "Réveil ") || t == "Pré-induction"
    ensures k.Some? ==> k.value != ""
  {
    if StartsWith(t, "Salle ") then Some("salle" + ReplaceFirst(t, "Salle ", ""))
    else if StartsWith(t, "Réveil ") then Some("reveil" + ReplaceFirst(t, "Réveil ", ""))
    else if t == "Pré-induction" then Some("perinduction")
    else None
  }

  /** The room key of a row header, from its text with surrounding whitespace removed. */
  function HeaderKey(text: string): Option<string> {
    RoomKeyOf(Strip(text))
  }

  /** `Salle N` has key `salleN`. */
  lemma RoomKeySalle(n: string)
    ensures RoomKeyOf("Salle " + n) == Some("salle" + n)
  {
    var t := "Salle " + n;
    assert StartsWith(t, "Salle ") by { assert t[..6] == "Salle "; }
    ReplaceFirstAtStart("Salle ", n, "");
    assert "" + n == n;
  }

  /** `Réveil N` has key `reveilN`. */
  lemma RoomKeyReveil(n: string)
    ensures RoomKeyOf("Réveil " + n) == Some("reveil" + n)
  {
    var t := "Réveil " + n;
    assert !StartsWith(t, "Salle ") by { assert t[1] != "Salle "[1]; }
    assert StartsWith(t, "Réveil ") by { assert t[..7] == "Réveil "; }
    ReplaceFirstAtStart("Réveil ", n, "");
    assert "" + n == n;
  }

  /** `Pré-induction` has key `perinduction`. */
  lemma RoomKeyPerinduction()
    ensures RoomKeyOf("Pré-induction") == Some("perinduction")
  {
    var t := "Pré-induction";
    assert !StartsWith(t, "Salle ") by { assert t[1] != "Salle "[1]; }
    assert !StartsWith(t, "Réveil ") by { assert t[1] != "Réveil "[1]; }
  }

  /** Whitespace around a header's text does not change its key. */
  lemma HeaderKeyPadded(pre: string, t: string, post: string)
    requires AllSpace(pre) && AllSpace(post) && Stripped(t)
    ensures HeaderKey(pre + t + post) == RoomKeyOf(t)
  {
    StripPadded(pre, t, post);
  }

  /** A header `Salle N`, whatever whitespace surrounds it, has key `salleN`. */
  lemma HeaderKeySalle(pre: string, n: string, post: string)
    requires AllSpace(pre) && AllSpace(post)
    requires n != [] && !IsSpace(n[|n| - 1])
    ensures HeaderKey(pre + "Salle " + n + post) == Some("salle" + n)
  {
    var t := "Salle " + n;
    assert pre + "Salle " + n + post == pre + t + post;
    assert Stripped(t) by { assert t[0] == 'S' && t[|t| - 1] == n[|n| - 1]; }
    HeaderKeyPadded(pre, t, post);
    RoomKeySalle(n);
  }

  /** A header `Réveil N`, whatever whitespace surrounds it, has key `reveilN`. */
  lemma HeaderKeyReveil(pre: string, n: string, post: string)
    requires AllSpace(pre) && AllSpace(post)
    requires n != [] && !IsSpace(n[|n| - 1])
    ensures HeaderKey(pre + "Réveil " + n + post) == Some("reveil" + n)
  {
    var t := "Réveil " + n;
    assert pre + "Réveil " + n + post == pre + t + post;
    assert Stripped(t) by { assert t[0] == 'R' && t[|t| - 1] == n[|n| - 1]; }
    HeaderKeyPadded(pre, t, post);
    RoomKeyReveil(n);
  }

  /** A header `Pré-induction`, whatever whitespace surrounds it, has key `perinduction`. */
  lemma HeaderKeyPerinduction(pre: string, post: string)
    requires AllSpace(pre) && AllSpace(post)
    ensures HeaderKey(pre + "Pré-induction" + post) == Some("perinduction")
  {
    HeaderKeyPadded(pre, "Pré-induction", post);
    RoomKeyPerinduction();
  }

  /** The attributes of a header once the key `k`, if any, is stored as `data-room`. */
  function WithKey(attrs: map<string, string>, k: Option<string>): map<string, string> {
    match k
    case None => attrs
    case Some(v) => attrs["data-room" := v]
  }

  /** The attributes of a header of text `text` once its room key, if any, is
      stored as `data-room`. */
  function Keyed(attrs: map<string, string>, text: string): (r: map<string, string>)
    ensures HeaderKey(text).None? ==> r == attrs
    ensures HeaderKey(text).Some? ==> r == attrs["data-room" := HeaderKey(text).value]
  {
    WithKey(attrs, HeaderKey(text))
  }

  // ----- the room-state classes of a cell -----

  /** The classes of a cell once `updateRoomStateUI` has shown `state`: both
      state classes removed, then the one matching the state added. */
  function StateClasses(classes: set<string>, state: RoomState): (r: set<string>)
    ensures "room-close" in r <==> state == Close
    ensures "room-unuse" in r <==> state == Unuse
    ensures forall c :: c != "room-close" && c != "room-unuse" ==> (c in r <==> c in classes)
  {
    var cleared := classes - {"room-close", "room-unuse"};
    match state
    case Open => cleared
    case Close => cleared + {"room-close"}
    case Unuse => cleared + {"room-unuse"}
  }

  /** Showing a state overrides whatever state was shown before. */
  lemma StateClassesLastWins(classes: set<string>, s1: RoomState, s2: RoomState)
    ensures StateClasses(StateClasses(classes, s1), s2) == StateClasses(classes, s2)
  {
  }

  /** `updateRoomStateUI`. */
  method UpdateRoomStateUI(cell: Element, state: RoomState)
    modifies cell`classes
    ensures cell.classes == StateClasses(old(cell.classes), state)
  {
    cell.classes := cell.classes - {"room-close", "room-unuse"};
    if state == Close {
      cell.classes := cell.classes + {"room-close"};
    } else if state == Unuse {
      cell.classes := cell.classes + {"room-unuse"};
    }
  }

  // ----- what the week-wide loop reads of the page -----

  /** What the week-wide loop reads of a schedule cell. */
  datatype CellView = CellView(date: Option<string>, room: Option<string>, hasEvent: bool)

  function ViewOf(c: Element): (v: CellView)
    reads c`attrs, c`hasEvent
    ensures v.date.Some? <==> "data-date" in c.attrs
    ensures v.room.Some? <==> "data-room" in c.attrs
  {
    CellView(
      if "data-date" in c.attrs then Some(c.attrs["data-date"]) else None,
      if "data-room" in c.attrs then Some(c.attrs["data-room"]) else None,
      c.hasEvent)
  }

  function Views(cells: seq<Element>): (v: seq<CellView>)
    reads cells`attrs, cells`hasEvent
    ensures |v| == |cells|
  {
    if cells == [] then [] else [ViewOf(cells[0])] + Views(cells[1..])
  }

  lemma {:induction false} ViewsAt(cells: seq<Element>, i: nat)
    requires i < |cells|
    ensures Views(cells)[i] == ViewOf(cells[i])
    decreases i
  {
    if i > 0 {
      ViewsAt(cells[1..], i - 1);
    }
  }

  predicate Matches(v: CellView, date: string, room: string) {
    v.date == Some(date) && v.room == Some(room)
  }

  /** `querySelector` for the cell of a date and a room: the first one in
      document order, if any. */
  function FirstCell(views: seq<CellView>, date: string, room: string): (i: Option<nat>)
    ensures i.Some? ==> i.value < |views| && Matches(views[i.value], date, room)
    ensures i.Some? ==> forall j :: 0 <= j < i.value ==> !Matches(views[j], date, room)
    ensures i.None? ==> forall j :: 0 <= j < |views| ==> !Matches(views[j], date, room)
  {
    if views == [] then None
    else if Matches(views[0], date, room) then Some(0)
    else match FirstCell(views[1..], date, room)
      case None => None
      case Some(k) => Some(k + 1)
  }

  /** A date the loop leaves alone: the room's cell that day holds a nurse. */
  predicate Taken(views: seq<CellView>, date: string, room: string) {
    var i := FirstCell(views, date, room);
    i.Some? && views[i.value].hasEvent
  }

  /** The five dates, Monday to Friday, of the week starting on `ws`. */
  function WeekDates(ws: Day): (ds: seq<string>)
    ensures |ds| == 5
    ensures forall i :: 0 <= i < 5 ==> ds[i] == DateKey(ws + i)
  {
    seq(5, i => DateKey(ws + i))
  }

  /** What the week-wide loop has done after visiting some dates: the successful
      requests, the skipped dates, the dates it sent a request for, and the
      cells whose classes it updated. */
  datatype Tally = Tally(success: nat, skipped: nat, posted: seq<string>, touched: set<nat>)

  /** The loop of `handleWeeklyRoomStateChange` over `dates`, the server
      accepting the requests for the dates in `accepted`. */
  function WeeklyTally(views: seq<CellView>, dates: seq<string>, room: string, accepted: set<string>): (t: Tally)
    ensures t.skipped + |t.posted| == |dates|
    ensures t.success <= |t.posted|
    ensures forall k :: k in t.touched ==> k < |views|
    decreases |dates|
  {
    if dates == [] then Tally(0, 0, [], {})
    else
      assert dates == dates[..|dates| - 1] + [dates[|dates| - 1]];
      StepTally(views, WeeklyTally(views, dates[..|dates| - 1], room, accepted), dates[|dates| - 1], room, accepted)
  }

  /** Visiting one more date is one more step. */
  lemma TallyStep(views: seq<CellView>, dates: seq<string>, j: nat, room: string, accepted: set<string>)
    requires j < |dates|
    ensures WeeklyTally(views, dates[..j + 1], room, accepted)
         == StepTally(views, WeeklyTally(views, dates[..j], room, accepted), dates[j], room, accepted)
  {
    assert dates[..j + 1][..j] == dates[..j];
  }

  /** Successes and skipped dates together never exceed the dates visited. */
  lemma SuccessAndSkippedBounded(views: seq<CellView>, dates: seq<string>, room: string, accepted: set<string>)
    ensures var t := WeeklyTally(views, dates, room, accepted); t.success + t.skipped <= |dates|
  {
  }

  /** The loop sends a request for exactly the dates whose cell holds no
      nurse: a date with a nurse in the room is never sent to the server. */
  lemma {:induction false} PostedExactly(views: seq<CellView>, dates: seq<string>, room: string, accepted: set<string>)
    ensures forall d :: d in WeeklyTally(views, dates, room, accepted).posted <==> d in dates && !Taken(views, d, room)
    decreases |dates|
  {
    if dates != [] {
      var pre := dates[..|dates| - 1];
      PostedExactly(views, pre, room, accepted);
      assert dates == pre + [dates[|dates| - 1]];
    }
  }

  /** The attributes of a cell at day offset `offset` once stamped with
      `date`. */
  function Stamped(attrs: map<string, string>, offset: int, date: string): map<string, string> {
    attrs["data-date" := date]["title" := DayName(offset) + " " + date]
  }

  /** A stamped cell has `data-date` set to the date and `title` naming the
      weekday and the date; its other attributes are kept. */
  lemma StampedFields(attrs: map<string, string>, offset: int, date: string)
    ensures var r := Stamped(attrs, offset, date);
      && "data-date" in r && r["data-date"] == date
      && "title" in r && r["title"] == DayName(offset) + " " + date
      && (forall k :: k in attrs && k != "data-date" && k != "title" ==> k in r && r[k] == attrs[k])
      && r.Keys == attrs.Keys + {"data-date", "title"}
  {
  }

  /** Stamping a cell twice with the same date is stamping it once. */
  lemma StampedIdempotent(attrs: map<string, string>, offset: int, date: string)
    ensures Stamped(Stamped(attrs, offset, date), offset, date) == Stamped(attrs, offset, date)
  {
  }

  /** The attributes of a cell of day `day` once the week `ws` is shown: it is
      stamped with the date `ws + day - 1`. */
  function Dated(attrs: map<string, string>, day: int, ws: Day): (r: map<string, string>)
    ensures "data-date" in r && r["data-date"] == DateKey(ws + day - 1)
  {
    Stamped(attrs, day - 1, DateKey(ws + day - 1))
  }

  /** Re-dating a cell for the same week changes nothing more. */
  lemma DatedIdempotent(attrs: map<string, string>, day: int, ws: Day)
    ensures Dated(Dated(attrs, day, ws), day, ws) == Dated(attrs, day, ws)
  {
    StampedIdempotent(attrs, day - 1, DateKey(ws + day - 1));
  }

  /** `DAYS_OF_WEEK[offset]`, `undefined` outside the five weekdays. */
  function DayName(offset: int): string {
    if 0 <= offset < 5 then ["Lundi", "Mardi", "Mercredi", "Jeudi", "Vendredi"][offset]
    else "undefined"
  }

  /** The cell of weekday `k` shows the date the week-wide loop visits `k - 1`-th,
      and that date falls on weekday `k`. */
  lemma CellDatesAreWeekDates(attrs: map<string, string>, ws: Day, k: int)
    requires Weekday(ws) == 1 && 1 <= k <= 5
    ensures Dated(attrs, k, ws)["data-date"] == WeekDates(ws)[k - 1]
    ensures Weekday(ws + k - 1) == k
  {
    WorkdayOfWeek(ws, k);
  }

  // ----- the week title -----

  /** The week title: day of the month of Monday and Friday, their months (the
      Monday's written only when it differs from the Friday's), and the Monday's year. */
  datatype WeekTitle =
    | SameMonth(startDay: int, endDay: int, month: int, year: int)
    | TwoMonths(startDay: int, startMonth: int, endDay: int, endMonth: int, year: int)

  /** `updateWeekTitle`: the week ends on `ws + 4`. */
  function WeekTitleOf(ws: Day): (t: WeekTitle)
    ensures t.SameMonth? <==> CivilOf(ws).month == CivilOf(ws + 4).month
    ensures t.startDay == CivilOf(ws).day && t.endDay == CivilOf(ws + 4).day
    ensures t.year == CivilOf(ws).year
    ensures t.SameMonth? ==> t.month == CivilOf(ws + 4).month
    ensures t.TwoMonths? ==> t.startMonth == CivilOf(ws).month && t.endMonth == CivilOf(ws + 4).month
  {
    var s, e := CivilOf(ws), CivilOf(ws + 4);
    if s.month == e.month then SameMonth(s.day, e.day, e.month, s.year)
    else TwoMonths(s.day, s.month, e.day, e.month, s.year)
  }

  // ----- the page -----

  class Planning {
    /** `currentWeekStart`, `null` until a week is shown. */
    var currentWeekStart: Option<Day>
    /** The text of `#current-week`. */
    var title: Option<WeekTitle>
    /** The `.schedule-cell` elements, in document order. */
    const cells: seq<Element>
    /** The `.room-cell` row headers, in document order. */
    const headers: seq<Element>

    constructor (cells: seq<Element>, headers: seq<Element>)
      ensures currentWeekStart == None && title == None
      ensures this.cells == cells && this.headers == headers
    {
      currentWeekStart := None;
      title := None;
      this.cells := cells;
      this.headers := headers;
    }

    /** A week is shown and it starts on a Monday. */
    predicate OnMonday()
      reads this
    {
      currentWeekStart.Some? && Weekday(currentWeekStart.value) == 1
    }

    /** `updateScheduleCellDates`. */
    method UpdateScheduleCellDates(ws: Day)
      modifies cells`attrs
      ensures forall c :: c in cells ==> c.attrs == Dated(old(c.attrs), c.day, ws)
    {
      var stamp := (attrs, k) => Dated(attrs, k + 1, ws);
      forall attrs, k ensures stamp(stamp(attrs, k), k) == stamp(attrs, k) {
        DatedIdempotent(attrs, k + 1, ws);
      }
      StampCells(stamp);
    }

    /** The loop of `updateScheduleCellDates`: every cell is stamped for its
        day offset; stamping twice is stamping once, so a cell listed twice
        ends up as if stamped once. */
    method StampCells(stamp: (map<string, string>, int) -> map<string, string>)
      requires forall attrs, k :: stamp(stamp(attrs, k), k) == stamp(attrs, k)
      modifies cells`attrs
      ensures forall c :: c in cells ==> c.attrs == stamp(old(c.attrs), c.day - 1)
    {
      ghost var done: set<Element> := {};
      var i := 0;
      while i < |cells|
        invariant 0 <= i <= |cells|
        invariant done == set k | 0 <= k < i :: cells[k]
        invariant forall c :: c in cells ==>
          c.attrs == if c in done then stamp(old(c.attrs), c.day - 1) else old(c.attrs)
      {
        var cell := cells[i];
        cell.attrs := stamp(cell.attrs, cell.day - 1);
        done := done + {cell};
        i := i + 1;
      }
    }

    /** `setCurrentWeek`: remember the week, retitle the page and re-date the
        cells. */
    method SetCurrentWeek(ws: Day)
      modifies this, cells`attrs
      ensures currentWeekStart == Some(ws) && title == Some(WeekTitleOf(ws))
      ensures forall c :: c in cells ==> c.attrs == Dated(old(c.attrs), c.day, ws)
    {
      currentWeekStart := Some(ws);
      title := Some(WeekTitleOf(ws));
      UpdateScheduleCellDates(ws);
    }

    /** The previous-week button: the shown week moves back by seven days
        (`new Date(null)`, day 0, when none is shown). */
    method PrevWeek()
      modifies this, cells`attrs
      ensures currentWeekStart == Some(old(currentWeekStart).GetOr(0) - 7)
      ensures old(OnMonday()) ==> OnMonday() && WeekStart(currentWeekStart.value) == currentWeekStart.value
      ensures forall c :: c in cells ==> c.attrs == Dated(old(c.attrs), c.day, currentWeekStart.value)
    {
      var base := currentWeekStart.GetOr(0);
      if OnMonday() {
        WeekStepKeepsMonday(base);
      }
      SetCurrentWeek(base - 7);
    }

    /** The next-week button: the shown week moves forward by seven days. */
    method NextWeek()
      modifies this, cells`attrs
      ensures currentWeekStart == Some(old(currentWeekStart).GetOr(0) + 7)
      ensures old(OnMonday()) ==> OnMonday() && WeekStart(currentWeekStart.value) == currentWeekStart.value
      ensures forall c :: c in cells ==> c.attrs == Dated(old(c.attrs), c.day, currentWeekStart.value)
    {
      var base := currentWeekStart.GetOr(0);
      if OnMonday() {
        WeekStepKeepsMonday(base);
      }
      SetCurrentWeek(base + 7);
    }

    /** The today button and the week-selection form: show the week holding `d`. */
    method ShowWeekOf(d: Day)
      modifies this, cells`attrs
      ensures currentWeekStart == Some(WeekStart(d)) && OnMonday()
      ensures forall c :: c in cells ==> c.attrs == Dated(old(c.attrs), c.day, WeekStart(d))
    {
      SetCurrentWeek(WeekStart(d));
    }

    /** `addRoomStateControlsToHeaders`: every header with a room key stores it
        as `data-room`. */
    method AddRoomStateControlsToHeaders()
      modifies headers`attrs
      ensures forall h :: h in headers ==> h.attrs == Keyed(old(h.attrs), h.text)
    {
      KeyHeaders(HeaderKey);
    }

    /** The loop of `addRoomStateControlsToHeaders`, for the key function `key`. */
    method KeyHeaders(key: string -> Option<string>)
      modifies headers`attrs
      ensures forall h :: h in headers ==> h.attrs == WithKey(old(h.attrs), key(h.text))
    {
      ghost var done: set<Element> := {};
      var i := 0;
      while i < |headers|
        invariant 0 <= i <= |headers|
        invariant done == set k | 0 <= k < i :: headers[k]
        invariant forall h :: h in headers ==>
          h.attrs == if h in done then WithKey(old(h.attrs), key(h.text)) else old(h.attrs)
      {
        var header := headers[i];
        var k := key(header.text);
        if k.Some? {
          header.attrs := header.attrs["data-room" := k.value];
        }
        done := done + {header};
        i := i + 1;
      }
    }

    /** The cells a tally updated. */
    ghost function TouchedCells(t: Tally): set<Element>
      reads this
    {
      set k | k in t.touched && k < |cells| :: cells[k]
    }

    /** The classes of the cells once the dates of tally `t` are visited,
        `orig` holding the classes before the first. */
    ghost predicate ShownTally(orig: map<Element, set<string>>, t: Tally, state: RoomState)
      reads this, cells`classes
    {
      forall c :: c in cells ==>
        c in orig && c.classes == if c in TouchedCells(t) then StateClasses(orig[c], state) else orig[c]
    }

    /** One date of the week-wide loop. */
    method VisitDate(room: string, state: RoomState, accepted: set<string>, d: string,
                     ghost views: seq<CellView>, ghost orig: map<Element, set<string>>, ghost t: Tally,
                     success: nat, skipped: nat, posted: seq<string>)
      returns (success': nat, skipped': nat, posted': seq<string>, ghost t': Tally)
      requires Views(cells) == views
      requires t.success == success && t.skipped == skipped && t.posted == posted
      requires ShownTally(orig, t, state)
      modifies cells`classes
      ensures t' == StepTally(views, t, d, room, accepted)
      ensures t'.success == success' && t'.skipped == skipped' && t'.posted == posted'
      ensures ShownTally(orig, t', state)
    {
      var i := FirstCell(Views(cells), d, room);
      if i.Some? {
        ViewsAt(cells, i.value);
      }
      t' := StepTally(views, t, d, room, accepted);
      if i.Some? && cells[i.value].hasEvent {
        success', skipped', posted' := success, skipped + 1, posted;
      } else {
        posted' := posted + [d];
        skipped' := skipped;
        if d in accepted {
          success' := success + 1;
          if i.Some? {
            var cell := cells[i.value];
            StateClassesLastWins(orig[cell], state, state);
            UpdateRoomStateUI(cell, state);
            assert cell in TouchedCells(t');
          }
        } else {
          success' := success;
        }
      }
    }

    /** The loop of `handleWeeklyRoomStateChange` over `dates`. */
    method VisitDates(room: string, state: RoomState, accepted: set<string>, dates: seq<string>)
      returns (success: nat, skipped: nat, posted: seq<string>)
      modifies cells`classes
      ensures var t := WeeklyTally(old(Views(cells)), dates, room, accepted);
        success == t.success && skipped == t.skipped && posted == t.posted
        && forall c :: c in cells ==>
             c.classes == if c in TouchedCells(t) then StateClasses(old(c.classes), state) else old(c.classes)
    {
      success, skipped, posted := 0, 0, [];
      ghost var views := Views(cells);
      ghost var orig := map c | c in cells :: c.classes;
      ghost var t := WeeklyTally(views, [], room, accepted);
      var j := 0;
      while j < |dates|
        invariant 0 <= j <= |dates|
        invariant Views(cells) == views
        invariant forall c :: c in cells ==> c in orig && orig[c] == old(c.classes)
        invariant t == WeeklyTally(views, dates[..j], room, accepted)
        invariant success == t.success && skipped == t.skipped && posted == t.posted
        invariant ShownTally(orig, t, state)
      {
        TallyStep(views, dates, j, room, accepted);
        success, skipped, posted, t := VisitDate(room, state, accepted, dates[j], views, orig, t, success, skipped, posted);
        j := j + 1;
      }
      assert dates[..j] == dates;
    }

    /** `handleWeeklyRoomStateChange`: nothing without a shown week; otherwise,
        for each of the five dates of the week, leave the room's cell alone when
        it holds a nurse, else send the state to the server and, when it
        accepts, show the state on the cell. */
    method HandleWeeklyRoomStateChange(room: string, state: RoomState, accepted: set<string>)
      returns (success: nat, skipped: nat, posted: seq<string>)
      modifies cells`classes
      ensures currentWeekStart.None? ==> success == 0 && skipped == 0 && posted == []
      ensures currentWeekStart.None? ==> forall c :: c in cells ==> c.classes == old(c.classes)
      ensures currentWeekStart.Some? ==>
        var t := WeeklyTally(old(Views(cells)), WeekDates(currentWeekStart.value), room, accepted);
        success == t.success && skipped == t.skipped && posted == t.posted
        && forall c :: c in cells ==>
             c.classes == if c in TouchedCells(t) then StateClasses(old(c.classes), state) else old(c.classes)
      ensures success + skipped <= 5
    {
      if currentWeekStart.None? {
        return 0, 0, [];
      }
      ghost var views := Views(cells);
      var dates := WeekDates(currentWeekStart.value);
      success, skipped, posted := VisitDates(room, state, accepted, dates);
      SuccessAndSkippedBounded(views, dates, room, accepted);
    }
  }

  /** One step of `WeeklyTally`: a taken date is skipped; any other is posted,
      and counted and shown on its cell when the server accepts it. */
  function StepTally(views: seq<CellView>, t: Tally, d: string, room: string, accepted: set<string>): (t': Tally)
    ensures Taken(views, d, room) ==> t' == t.(skipped := t.skipped + 1)
    ensures !Taken(views, d, room) ==> t'.posted == t.posted + [d] && t'.skipped == t.skipped
    ensures t'.success == t.success + (if !Taken(views, d, room) && d in accepted then 1 else 0)
    ensures forall k :: k in t'.touched ==> k in t.touched || FirstCell(views, d, room) == Some(k)
  {
    var i := FirstCell(views, d, room);
    if Taken(views, d, room) then t.(skipped := t.skipped + 1)
    else if d in accepted then
      Tally(t.success + 1, t.skipped, t.posted + [d], if i.Some? then t.touched + {i.value} else t.touched)
    else t.(posted := t.posted + [d])
  }
}
