# Nurse and operating-room weekly planner, modelled in Dafny

The system plans nurses into the twelve rooms of an operating suite, one week at a
time. The suite has nine operating rooms `salle16`–`salle24`, two recovery rooms
`reveil1` and `reveil2`, and `perinduction`. The Flask back end keeps three tables:

- `listeInfirmier`: the nurses.
- `emploisDuTemps`: one row per date, one column per room, plus room states.
- `statistique`: one row per nurse, one counter per room, counting the days that
  nurse spent in that room.

The browser front end shows the week as a grid, lets the user drag nurses onto
cells, close or "unuse" a room for a day or a week, edit the nurse list and draw a
statistics chart.

The model has one Dafny module per file:

- **`Wrappers`, `Text`** (`wrappers.dfy`, `text.dfy`): `Option`, and the Python
  and JavaScript string operations the core relies on. These are `strip`,
  `split`/`join`, first-occurrence `replace` and `toLowerCase`.
- **`Rooms`** (`rooms.dfy`): the room enumeration in `SALLE_NAMES` order, the
  column names, and the room state (`close`, `unuse`, open).
- **`Labels`** (`labels.dfy`): the cell label `"Prenom Nom - Status"` and
  `parse_label`.
- **`Counters`** (`counters.dfy`): `ensure_stat_row`, `increment_stat` and
  `decrement_stat` over the statistics table.
- **`Schedule`** (`schedule.dfy`): a day row (cells and states), label-to-nurse
  resolution, and the pure rules of the scheduling routes.
- **`Bookkeeping`** (`bookkeeping.dfy`): the invariant the routes keep. Every
  counter equals the number of days on which the schedule places that nurse in
  that room.
- **`Routes`** (`routes.dfy`): the routes of `backend/api/routes.py`. They are
  methods of a class `Store` whose fields are the schedule rows and the
  statistics, so every schedule route is proved to keep the invariant. The nurse
  table is fixed for the store's lifetime: the routes that change it are not
  modelled here (see Left out). The loops of the
  week route and of the availability check are methods with loop invariants.
- **`LegacyApi`** (`legacy_api.dfy`): the first-generation API of
  `backend/api/app.py`. It covers the nurse routes, the statistics route, and the
  whole-day schedule routes with their counter loop
  `update_statistiques_from_assignment`.
- **`Records`** (`records.dfy`): the three model classes and their
  `to_dict`/`from_dict`.
- **`Calendar`, `Dom`** (`calendar.dfy`, `dom.dfy`): day numbers with weekday and
  civil date, and a DOM element (class list, attributes).
- **`Planning`** (`planning.dfy`): the planning page. This covers week
  navigation, re-dating the cells, the room keys of the row headers, the room
  state classes, and the week-wide room-state change.
- **`DragDrop`** (`drag_drop.dfy`): drag payloads, hover classes, the drop
  decision, assignment, moves between cells, and the unavailable-day marking.
- **`NurseList`** (`nurse_list.dfy`): the nurse list page in its mock mode.
- **`StatsChart`** (`stats_chart.dfy`): the chart datasets and their colours, and
  the chart manager's `init`/`refresh`.

A few representation choices hold throughout:

- A date is a day number, with day 0 = 1970-01-01. The back end stores dates as
  TEXT. It compares them (`BETWEEN`) and sorts them (`ORDER BY date`) as text in
  `get_emplois_du_temps_semaine` (routes.py:288-291). `Schedule.DatesBetween`
  uses the order of day numbers instead. The two agree only for zero-padded ISO
  `YYYY-MM-DD` dates with four-digit years, which the model assumes all stored
  dates are.
- A NULL cell is a key missing from the row's map.
- A label resolves to a nurse id through `LabelOwner`, which follows
  `get_infirmier_id_from_label`. The store takes that resolver as a function
  fixed by its constructor.

The code comment on `parse_label` speaks of splitting the name "by last space".
The code splits at the first space, and the model follows the code.

## Model

| member | source | states |
|---|---|---|
| Rooms.SalleNamesEnumerates | backend/api/routes.py:15-16 | `SALLE_NAMES` lists every one of the twelve rooms exactly once |
| Rooms.KeyInjective | backend/api/routes.py:15-16 | two rooms with the same column name are the same room |
| Rooms.FindKey | backend/api/routes.py:477-478 | a room found for a name is listed and has that name; when none is found, no listed room has it |
| Rooms.FromKey | backend/api/routes.py:477-478 | a room name is accepted exactly when some room has that column name, and it decodes to that room |
| Rooms.FromKeyKey | backend/api/routes.py:15-16 | decoding a room's column name gives the room back |
| Rooms.NormaliseState | backend/api/routes.py:474 | the state is `close` exactly for "close" and `unuse` exactly for "unuse"; anything else, null included, is open |
| Text.Strip | backend/api/routes.py:374-375 | the result has no leading or trailing whitespace |
| Text.StripStripped | backend/api/routes.py:374-375 | stripping a text that has no surrounding whitespace changes nothing |
| Text.StripPadded | backend/api/routes.py:374-375 | stripping removes exactly the whitespace padding around a stripped text |
| Text.TrimLeft | backend/api/routes.py:41 | the result is a suffix starting with a non-space; everything removed was whitespace |
| Text.TrimRight | backend/api/routes.py:41 | the result is a prefix ending with a non-space; everything removed was whitespace |
| Text.Split | backend/api/routes.py:40 | at least one piece; no piece holds the separator; a single piece exactly when the separator is absent |
| Text.JoinSplit | backend/api/routes.py:40 | joining the pieces back with the separator gives the original text |
| Text.SplitAfter | backend/api/routes.py:40 | text before the first separator is the first piece, and the rest splits on its own |
| Text.ReplaceFirstAtStart | frontend/public/js/infirmiers.js:187 | a pattern at the start is replaced there |
| Text.ReplaceFirstChar | frontend/public/js/infirmiers.js:187 | only the first occurrence of a character is replaced |
| Text.ReplaceFirstAbsent | frontend/public/js/infirmiers.js:187 | replacing an absent character leaves the text unchanged |
| Text.Lower | frontend/public/js/infirmiers.js:187 | ASCII lower-casing: keeps the length, maps each letter A–Z to its lower-case letter (32 code points on) and leaves every other character alone (see Left out) |
| Text.LowerAppend | frontend/public/js/infirmiers.js:187 | lower-casing distributes over concatenation |
| Labels.SplitName | backend/api/routes.py:44-50 | first name and surname come back stripped; without a space, the whole text is the first name and the surname is empty |
| Labels.SplitNameAtFirstSpace | backend/api/routes.py:44-46 | the name is cut at the first space: what precedes it is the first name, the rest (stripped) the surname |
| Labels.ParseParts | backend/api/routes.py:40-50 | first name and surname are always given; the status is missing exactly when there is one `-`-piece |
| Labels.ParseLabel | backend/api/routes.py:35-51 | an empty or missing label parses to three missing values; any other label gives a first name and surname, and a status exactly when it contains `-` |
| Labels.FormatSplit | backend/api/routes.py:137 | the label `"Prenom Nom - Status"` splits on `-` into the name part and the status part |
| Labels.SplitNameFormat | backend/api/routes.py:44-50 | the name part of a label splits back into its first name and surname, whether the surname is empty or not |
| Labels.SplitNameFirstOnly | backend/api/routes.py:44-50 | a label with an empty surname gives the first name and an empty surname |
| Labels.SplitNameBoth | backend/api/routes.py:44-50 | a label with a surname gives the first name and that surname |
| Labels.PartsOfFormat | backend/api/routes.py:40-50 | the two pieces of a formatted label parse to its first name, surname and status |
| Labels.ParseFormatRoundTrip | backend/api/routes.py:137 | parsing the label built from a nurse recovers that nurse's first name, surname and status, for names without `-` and a first name without a space |
| Labels.ParseIgnoresExtraSegments | backend/api/routes.py:40-42 | pieces after the second `-` are ignored |
| Counters.ZeroRow | backend/api/routes.py:69-74 | a freshly created statistics row has every room counter at zero |
| Counters.EnsureStatRow | backend/api/routes.py:69-74 | a row exists for a non-zero id afterwards; existing rows are untouched, only that id's row can be new, and no counter changes |
| Counters.IncrementStat | backend/api/routes.py:76-81 | a non-zero id gains exactly one in that room (a NULL counter counts as zero); every other counter is unchanged; id 0 changes nothing; non-negativity is kept |
| Counters.DecrementStat | backend/api/routes.py:83-88 | a positive counter loses one, and a counter never drops below zero; every other counter is unchanged; id 0 changes nothing |
| Counters.DecrementUndoesIncrement | backend/api/routes.py:76-88 | a decrement after an increment of the same counter restores every counter |
| Schedule.SetCell | backend/api/routes.py:395-407 | the written room holds the new value, every other room and every state is unchanged |
| Schedule.SetState | backend/api/routes.py:500-504 | the room has the new state, every other room's state and every cell is unchanged |
| Schedule.NurseLabel | backend/api/routes.py:381 | the label of a nurse is never empty |
| Schedule.FirstMatch | backend/api/routes.py:53-67 | no id exactly when no nurse matches the name (and status, when one is given); otherwise the id of a matching nurse |
| Schedule.FirstMatchAt | backend/api/routes.py:53-67 | the first matching row in table order is the one returned (`LIMIT 1`) |
| Schedule.LabelOwner | backend/api/routes.py:53-67 | the empty label and an empty table resolve to nobody |
| Schedule.LabelOwnerOfNurseLabel | backend/api/routes.py:53-67 | the label built for a nurse resolves back to that nurse when no earlier nurse has the same identity |
| Schedule.NurseById | backend/api/routes.py:376-385 | a nurse found by id is in the table with that id; none found means no nurse has it |
| Schedule.AssignedValue | backend/api/routes.py:371-385 | a given label is stored stripped, and becomes NULL exactly when it is blank; otherwise a non-zero known id gives that nurse's label and anything else NULL; the stored value is never empty |
| Schedule.Release | backend/api/routes.py:388-394 | a falsy previous occupant releases nothing; counters stay non-negative |
| Schedule.Credit | backend/api/routes.py:404-407 | counters stay non-negative |
| Schedule.AssignStatsAsWritten | backend/api/routes.py:395-407 | as written: clearing releases the old occupant, re-writing the same label credits it once more, and writing a different value agrees with `AssignStats` |
| Schedule.AssignStats | backend/api/routes.py:388-407 | corrected rule: writing the value a cell already holds changes no counter; otherwise the old occupant is released and the new one credited; non-negativity is kept |
| Schedule.Holders | backend/api/routes.py:304-317 | the rooms holding a label are at most the rooms visited |
| Schedule.HoldersMembers | backend/api/routes.py:304-317 | a room is listed exactly when it is visited, occupied and holds that label |
| Schedule.OccupiedCells | backend/api/routes.py:304-309 | the `labels` of a day hold exactly the rooms with a truthy cell, with that cell's value |
| Schedule.FirstHolder | backend/api/routes.py:604-608 | a room found holds the truthy label; none found means no listed occupied room holds it |
| Schedule.FirstHolderAt | backend/api/routes.py:604-608 | the room found is the first in list order holding the label: when room `k` holds it and no earlier room does, room `k` is found |
| Schedule.ClosedRooms | backend/api/routes.py:611-614 | exactly the listed rooms whose state is `close` or `unuse` |
| Schedule.ClosedRoomsInOrder | backend/api/routes.py:611-614 | the closed rooms keep list order: any two of them appear in the room list at increasing positions |
| Schedule.DatesBetween | backend/api/routes.py:288-291 | exactly the stored dates between the two bounds, inclusive, in increasing order |
| Bookkeeping.ReplaceStats | backend/api/routes.py:388-407 | replacing an occupant keeps counters non-negative |
| Bookkeeping.ReleaseCount | backend/api/routes.py:388-394 | a release takes one day from the owner of the old truthy label in that room (never below zero) and nothing from anyone else |
| Bookkeeping.CreditCount | backend/api/routes.py:404-407 | a credit adds one day to the owner of the new label in that room and nothing to anyone else |
| Bookkeeping.EmptyRowHoldsNothing | backend/api/routes.py:357-369 | creating an empty row for a date keeps every counter equal to its held days |
| Bookkeeping.StatesHoldNothing | backend/api/routes.py:500-504 | changing only the states of a row keeps every counter equal to its held days |
| Bookkeeping.StateChangePreservesConsistency | backend/api/routes.py:486-515 | storing a state keeps every counter equal to its held days, and so does evicting and releasing the room's occupant |
| Bookkeeping.HeldDaysOtherRoom | backend/api/routes.py:395-407 | writing one cell leaves every other room's held days alone |
| Bookkeeping.HeldDaysSameRoom | backend/api/routes.py:395-407 | in the written room, the date leaves or joins the held days according to the new label |
| Bookkeeping.WriteSameRoom | backend/api/routes.py:395-407 | in the written room, the number of held days drops by one if the nurse held the cell and rises by one if the new label is the nurse's |
| Bookkeeping.WriteCountAt | backend/api/routes.py:388-407 | after a write settled by release-and-credit, the nurse's counter for each room still equals that room's held days |
| Bookkeeping.WritePreservesConsistency | backend/api/routes.py:388-407 | writing a cell and settling its counters keeps every counter equal to its held days |
| Bookkeeping.AssignPreservesConsistency | backend/api/routes.py:357-407 | the corrected assignment, with row creation, keeps every counter equal to its held days |
| Bookkeeping.ResetPreservesConsistency | backend/api/routes.py:445-451 | clearing an occupied cell and releasing its occupant keeps every counter equal to its held days |
| Bookkeeping.AssignAsWrittenBreaksConsistency | backend/api/routes.py:398-407 | re-assigning the label a cell already holds, as written, leaves a counter that no longer equals the held days |
| Routes.DistinctConcat | backend/api/routes.py:315-317 | two duplicate-free, disjoint lists concatenate to a duplicate-free list |
| Routes.HoldersDistinct | backend/api/routes.py:300-317 | the rooms of one label are listed once each |
| Routes.HoldersStep | backend/api/routes.py:304-312 | visiting one more room appends it to its label's holders exactly when it holds that label |
| Routes.LabelsStep | backend/api/routes.py:304-312 | one turn of the first loop records the room's cell exactly when it is truthy |
| Routes.HeldLabelGrouped | backend/api/routes.py:304-312 | a label some visited room holds already has its group |
| Routes.GroupsStep | backend/api/routes.py:304-312 | one turn of the first loop appends the room to its label's group, opening the group the first time the label is met |
| Routes.VisitRoom | backend/api/routes.py:304-312 | one turn of the first loop keeps `labels` and the groups exact for the rooms visited |
| Routes.GroupByLabel | backend/api/routes.py:304-312 | after the first loop, `labels` holds the truthy cells and each label met maps to its rooms, in order |
| Routes.DoublonsStep | backend/api/routes.py:315-317 | one turn of the second loop adds the rooms of a label exactly when it has more than one |
| Routes.DoublonsComplete | backend/api/routes.py:315-317 | after the second loop, the doublons are exactly the rooms whose label another room also holds |
| Routes.DayDoublons | backend/api/routes.py:300-317 | `labels` is exactly the truthy cells; a room is a doublon exactly when another room holds its label; no doublon is listed twice |
| Routes.FindHolder | backend/api/routes.py:604-608 | the loop returns `FirstHolder`, and a room it returns sits at a position before which no listed room holds the label |
| Routes.ClosedList | backend/api/routes.py:611-614 | the loop returns `ClosedRooms`: exactly the closed or unused rooms, any two of them at increasing positions of the room list |
| Routes.QueryLabel | backend/api/routes.py:572-586 | a given label is used as is; in a JSON body without one, the label of the nurse named by id |
| Routes.Store.AssignInfirmier | backend/api/routes.py:333-423 | a missing date or room is a 400 that changes nothing; otherwise the cell holds the resolved value, the counters follow the corrected rule, and every counter still equals its held days |
| Routes.Store.WriteAssignment | backend/api/routes.py:357-407 | creates the row when missing, writes the cell, settles the counters by the corrected rule, and keeps the invariant |
| Routes.Store.ResetAssignment | backend/api/routes.py:427-464 | 400 without date or room; 404, changing nothing, when the row is missing or the cell empty; otherwise the cell becomes NULL and its occupant is released, keeping the invariant |
| Routes.Store.UpdateSalleState | backend/api/routes.py:468-534 | 400 without date, room or state, or for an unknown room; otherwise the normalised state is stored (creating the row), and an unavailable room also loses its occupant, who is released |
| Routes.Store.StoreState | backend/api/routes.py:486-515 | the state goes into the day's row; closing or unusing also clears and releases the cell; the invariant is kept |
| Routes.Store.GetSalleStates | backend/api/routes.py:538-566 | every room gets its stored state; a date without a row reports every room open |
| Routes.Store.CheckNurseAvailability | backend/api/routes.py:570-631 | 400 for a body without date or nurse; without a row the nurse is free; otherwise the first room, in list order, holding the label (`FirstHolderAt`) and the closed rooms in list order (`ClosedRoomsInOrder`); available exactly when no room holds it or it is the current room; `sallesOccupees` names the blocking room exactly when unavailable |
| Routes.Store.WeekSchedule | backend/api/routes.py:279-329 | 400 unless both bounds are given; otherwise one entry per stored date between them, in order, each with its exact labels and doublons |
| LegacyApi.Prior | backend/api/app.py:339-346 | a previous value exists exactly when a previous row was read |
| LegacyApi.FieldCount | backend/api/app.py:349-371 | a counter never becomes negative; a falsy field, or a field equal to the previous value, leaves it alone |
| LegacyApi.StatsAfter | backend/api/app.py:334-371 | no statistics row or room counter is created; counters stay non-negative |
| LegacyApi.AddOne | backend/api/app.py:364-371 | the named counter gains one, all others unchanged (a missing row is a no-op) |
| LegacyApi.SubOne | backend/api/app.py:354-361 | the named counter loses one only when positive, all others unchanged |
| LegacyApi.StepRoom | backend/api/app.py:349-371 | one loop turn applies the field rule to the room's counters and leaves the other rooms alone |
| LegacyApi.ProcessRoom | backend/api/app.py:349-371 | processing one more room extends the processed set by that room |
| LegacyApi.InsertCountsAssignments | backend/api/app.py:364-371 | for a new day, each counter grows by one exactly when the day assigns that room to that nurse |
| LegacyApi.FalsyFieldChangesNothing | backend/api/app.py:350 | an absent or falsy field changes no counter of its room |
| LegacyApi.ReassignMovesCounter | backend/api/app.py:354-371 | a room moving from nurse a to nurse b takes one from a (never below zero), gives one to b, and leaves everyone else alone |
| LegacyApi.MergedRow | backend/api/app.py:306-310 | the updated row takes each room from the body when given, else keeps the stored value |
| LegacyApi.PutStatsAsWritten | backend/api/app.py:315-346 | as written: the counter loop compares the body with the row already overwritten, so no counter changes |
| LegacyApi.PutAsWrittenChangesNothing | backend/api/app.py:315-346 | the counter rule applied to the merged row as its own previous row leaves every counter unchanged |
| LegacyApi.PutAsWrittenMissesMove | backend/api/app.py:315-346 | moving salle16 from nurse 1 to nurse 2 leaves both counters as they were, where the intended rule moves one day |
| LegacyApi.StoredFlag | backend/api/app.py:86 | `present` is stored as 1 exactly when truthy, else 0 |
| LegacyApi.Database.AddInfirmier | backend/api/app.py:72-105 | 400 without `nom` or `prenom`; otherwise a fresh id, the defaults `J` and present, and a zeroed statistics row |
| LegacyApi.Database.UpdateInfirmier | backend/api/app.py:107-136 | 404 for an unknown id; otherwise each field not given keeps its stored value; nothing else changes |
| LegacyApi.Database.UpdateStatistique | backend/api/app.py:172-209 | 404 without a row; otherwise each room given is overwritten (null becomes NULL), every other counter and row unchanged |
| LegacyApi.Database.UpdateStatsFromAssignment | backend/api/app.py:334-371 | the loop over the twelve fields yields exactly `StatsAfter` of the previous table |
| LegacyApi.Database.AddEmploisDuTemps | backend/api/app.py:253-290 | 400 without a date or for a date already stored; otherwise the row is stored with missing rooms NULL and every assignment counted |
| LegacyApi.Database.UpdateEmploisDuTemps | backend/api/app.py:292-331 | corrected rule (the code as written is `LegacyApi.PutStatsAsWritten`, see Findings): 404 for an unknown date; otherwise the merged row is stored and the counters follow the change from the row as it was before the write |
| Records.NewStatistique | backend/models/statistique.py:5-21 | keeps id and nurse id; every room is present, defaulting to 0 |
| Records.StatistiqueToDict | backend/models/statistique.py:23-42 | exactly the keys `id`, `infirmierID` and the twelve rooms (14 keys), each with its field |
| Records.StatistiqueFromDict | backend/models/statistique.py:44-64 | every field read from its key, rooms defaulting to 0 and ids to None |
| Records.StatistiqueRoundTrip | backend/models/statistique.py:23-64 | `from_dict(to_dict(s)) == s` |
| Records.StatistiqueDefaults | backend/models/statistique.py:5-64 | the default constructor and `from_dict({})` agree, with every counter 0 |
| Records.NewEmploisDuTemps | backend/models/emplois_du_temps.py:5-21 | keeps id and date; every room is present, defaulting to None |
| Records.EmploisDuTempsToDict | backend/models/emplois_du_temps.py:23-42 | exactly the keys `id`, `date` and the twelve rooms (14 keys), each with its field |
| Records.EmploisDuTempsFromDict | backend/models/emplois_du_temps.py:44-64 | every field read from its key, defaulting to None |
| Records.EmploisDuTempsRoundTrip | backend/models/emplois_du_temps.py:23-64 | `from_dict(to_dict(e)) == e` |
| Records.EmploisDuTempsDefaults | backend/models/emplois_du_temps.py:5-64 | the default constructor and `from_dict({})` agree, with every room None |
| Records.NewInfirmier | backend/models/infirmier.py:5-10 | keeps the given fields; `present` starts true |
| Records.InfirmierToDict | backend/models/infirmier.py:12-22 | exactly five keys, each with its field |
| Records.InfirmierFromDict | backend/models/infirmier.py:24-35 | every field read from its key; `present` defaults to true |
| Records.InfirmierRoundTrip | backend/models/infirmier.py:12-35 | `from_dict(to_dict(i)) == i` |
| Records.InfirmierPresentDefault | backend/models/infirmier.py:24-35 | a dictionary without `present` gives a present nurse |
| Records.HeaderNotRoom | backend/models/statistique.py:23-42 | the header keys `id`, `infirmierID` and `date` are not room names, so no field is shadowed |
| Calendar.Weekday | frontend/public/js/planning.js:251-265 | `getDay` lies in 0..6 |
| Calendar.DaysInMonth | frontend/public/js/planning.js:315-340 | a month has 28 to 31 days |
| Calendar.MonthsMakeYear | frontend/public/js/planning.js:315-340 | the twelve months add up to the year's length |
| Calendar.CivilOf | frontend/public/js/planning.js:315-340 | the civil date of a day has a month 1..12 and a day within that month |
| Calendar.DigitsAreDigits | frontend/public/js/planning.js:99 | the zero-padded fields of an ISO date are digits |
| Dom.Lookup | frontend/public/js/drag-drop.js:96-128 | `getAttribute` gives a value exactly when the attribute is set, and that value |
| Planning.DaysSinceMonday | frontend/public/js/planning.js:251-265 | 0 to 6 days back (Sunday counts 6) lands on a Monday |
| Planning.WeekStart | frontend/public/js/planning.js:251-265 | the week start is a Monday at most six days before the date |
| Planning.MondaysApart | frontend/public/js/planning.js:251-265 | two Mondays less than a week apart are the same day |
| Planning.WeekStartUnique | frontend/public/js/planning.js:251-265 | the week start is the only Monday among the date and the six days before it |
| Planning.WeekStartIdempotent | frontend/public/js/planning.js:251-265 | the week start of a week start is itself |
| Planning.SameWeek | frontend/public/js/planning.js:251-265 | every day of a week has that week's Monday as week start |
| Planning.WeekStepKeepsMonday | frontend/public/js/planning.js:175-190 | moving a Monday a week either way lands on the Monday of that week |
| Planning.WorkdayOfWeek | frontend/public/js/planning.js:96-101 | day k of the shown week (1 = Monday .. 5 = Friday) falls on weekday k |
| Planning.FormatDate | frontend/public/js/planning.js:643-646 | a text without `-` gives `undefined/undefined/<text>` |
| Planning.FormatDateReorders | frontend/public/js/planning.js:643-646 | `YYYY-MM-DD` becomes `DD/MM/YYYY` |
| Planning.FormatDateKey | frontend/public/js/planning.js:643-646 | the ISO date of a day formats as its zero-padded day, month and year |
| Planning.RoomKeyOf | frontend/public/js/planning.js:530-546 | a key exists exactly for `Salle …`, `Réveil …` and `Pré-induction` headers, and is never empty |
| Planning.RoomKeySalle | frontend/public/js/planning.js:530-546 | `Salle N` has key `salleN` |
| Planning.RoomKeyReveil | frontend/public/js/planning.js:530-546 | `Réveil N` has key `reveilN` |
| Planning.RoomKeyPerinduction | frontend/public/js/planning.js:530-546 | `Pré-induction` has key `perinduction` |
| Planning.HeaderKeyPadded | frontend/public/js/planning.js:530-546 | whitespace around a header's text does not change its key |
| Planning.HeaderKeySalle | frontend/public/js/planning.js:530-546 | a padded `Salle N` header has key `salleN` |
| Planning.HeaderKeyReveil | frontend/public/js/planning.js:530-546 | a padded `Réveil N` header has key `reveilN` |
| Planning.HeaderKeyPerinduction | frontend/public/js/planning.js:530-546 | a padded `Pré-induction` header has key `perinduction` |
| Planning.Keyed | frontend/public/js/planning.js:524-591 | a header with a key gets `data-room` set to it; any other header is unchanged |
| Planning.StateClasses | frontend/public/js/planning.js:508-518 | `room-close` is shown exactly for close, `room-unuse` exactly for unuse; other classes are untouched |
| Planning.StateClassesLastWins | frontend/public/js/planning.js:508-518 | showing a state overrides whatever state was shown before |
| Planning.UpdateRoomStateUI | frontend/public/js/planning.js:508-518 | the cell's classes become those of the new state |
| Planning.ViewOf | frontend/public/js/planning.js:108-142 | the date and room read from a cell exist exactly when the attributes do |
| Planning.ViewsAt | frontend/public/js/planning.js:108-142 | the view of the i-th cell is that cell's view |
| Planning.FirstCell | frontend/public/js/planning.js:108-142 | `querySelector` finds the first cell of that date and room, or reports that there is none |
| Planning.WeekDates | frontend/public/js/planning.js:96-101 | the five ISO dates Monday to Friday of the week |
| Planning.WeeklyTally | frontend/public/js/planning.js:108-142 | skipped dates plus posted dates make all the dates; successes never exceed the requests; updated cells exist |
| Planning.StepTally | frontend/public/js/planning.js:108-142 | a taken date is skipped; any other is posted, counted a success when accepted, and updates only its cell |
| Planning.TallyStep | frontend/public/js/planning.js:108-142 | visiting one more date is one more step of the loop |
| Planning.SuccessAndSkippedBounded | frontend/public/js/planning.js:108-142 | successes and skipped dates never exceed the dates visited |
| Planning.PostedExactly | frontend/public/js/planning.js:108-142 | a request is sent exactly for the dates whose room cell holds no nurse |
| Planning.StampedFields | frontend/public/js/planning.js:369-388 | a stamped cell has `data-date` set to the date and `title` naming the weekday and date |
| Planning.StampedIdempotent | frontend/public/js/planning.js:369-388 | stamping twice with the same date is stamping once |
| Planning.Dated | frontend/public/js/planning.js:369-388 | a cell of day k gets the ISO date of the week start plus k − 1 |
| Planning.DatedIdempotent | frontend/public/js/planning.js:369-388 | re-dating a cell for the same week changes nothing |
| Planning.CellDatesAreWeekDates | frontend/public/js/planning.js:96-101 | the date shown on the cell of weekday k is the k-th date the week-wide loop visits, and falls on weekday k |
| Planning.WeekTitleOf | frontend/public/js/planning.js:315-340 | one month in the title exactly when Monday and Friday share it; the day numbers and year are those of Monday and Friday |
| Planning.Planning.UpdateScheduleCellDates | frontend/public/js/planning.js:369-388 | every cell is re-dated for the week |
| Planning.Planning.StampCells | frontend/public/js/planning.js:369-388 | the loop stamps every cell for its day |
| Planning.Planning.SetCurrentWeek | frontend/public/js/planning.js:298-309 | the week is remembered, the title is that week's, and every cell is re-dated |
| Planning.Planning.PrevWeek | frontend/public/js/planning.js:175-179 | the shown week moves back seven days and stays on a Monday; cells re-dated |
| Planning.Planning.NextWeek | frontend/public/js/planning.js:183-189 | the shown week moves forward seven days and stays on a Monday; cells re-dated |
| Planning.Planning.ShowWeekOf | frontend/public/js/planning.js:195-217 | the shown week is the one holding the chosen date, starting on its Monday |
| Planning.Planning.AddRoomStateControlsToHeaders | frontend/public/js/planning.js:524-591 | every header with a room key stores it as `data-room`; others are untouched |
| Planning.Planning.KeyHeaders | frontend/public/js/planning.js:524-591 | the loop stores each header's key |
| Planning.Planning.VisitDate | frontend/public/js/planning.js:108-142 | one date of the loop is one `StepTally`, with the cell classes to match |
| Planning.Planning.VisitDates | frontend/public/js/planning.js:108-142 | the loop's counters and requests are those of `WeeklyTally`, and exactly the touched cells show the new state |
| Planning.Planning.HandleWeeklyRoomStateChange | frontend/public/js/planning.js:86-166 | nothing without a shown week; otherwise the five week dates go through the loop, and successes plus skipped dates are at most five |
| DragDrop.ListPayload | frontend/public/js/drag-drop.js:96-128 | a payload exists exactly when the item has `data-id`, `data-nom` and `data-prenom`; it carries that id and the names, and is not from a cell |
| DragDrop.CellPayload | frontend/public/js/planning.js:963-987 | a payload from a cell carries the label and the source date and room, and no id |
| DragDrop.HandleDragStart | frontend/public/js/drag-drop.js:96-128 | the payload of the item; `dragging` is added exactly when there is one |
| DragDrop.HandleInfirmierDragStart | frontend/public/js/planning.js:963-987 | the payload of the placed nurse in its cell; `dragging` is added |
| DragDrop.HoverClasses | frontend/public/js/drag-drop.js:148-161 | a blocked cell shows `drag-not-allowed`, any other `drag-over` |
| DragDrop.LeaveClasses | frontend/public/js/drag-drop.js:167-170 | both hover classes are removed, the others kept |
| DragDrop.HoverThenLeave | frontend/public/js/drag-drop.js:148-170 | hovering then leaving leaves no trace and never changes whether the room is blocked |
| DragDrop.HandleDragOver | frontend/public/js/drag-drop.js:148-161 | the drop is allowed exactly on a cell neither closed nor unused |
| DragDrop.HandleDragLeave | frontend/public/js/drag-drop.js:167-170 | the hover classes are removed |
| DragDrop.Dispatch | frontend/public/js/drag-drop.js:217-240 | failure exactly without a target date or room; same-cell, move or assignment by the payload's origin |
| DragDrop.DropAsWritten | frontend/public/js/drag-drop.js:176-251 | as written: refused exactly on a blocked cell |
| DragDrop.CellDragNeverMoves | frontend/public/js/drag-drop.js:200-202 | as written, every drag out of a cell is refused or fails |
| DragDrop.Drop | frontend/public/js/drag-drop.js:176-251 | corrected: refused exactly on a blocked cell; fails exactly for a missing or unidentified payload or a target without date or room; only an identified payload acts |
| DragDrop.CellDragMoves | frontend/public/js/drag-drop.js:217-240 | a labelled nurse dragged onto another open cell moves there; dropped on its own cell, nothing happens |
| DragDrop.ListDragAssigns | frontend/public/js/drag-drop.js:217-240 | for list drags both versions agree, and a complete drop assigns the nurse to the target |
| DragDrop.HandleDrop | frontend/public/js/drag-drop.js:176-251 | the outcome is the corrected `Drop`, with the hover classes cleared |
| DragDrop.AssignInfirmierToCell | frontend/public/js/drag-drop.js:260-306 | one assignment request by id; the cell shows the nurse once the server accepts; `loading` is removed |
| DragDrop.MoveRequestsSpec | frontend/public/js/drag-drop.js:347-413 | availability is asked exactly for a move within one date to another room; nothing is written exactly when the answer stops the move; otherwise unassign the source, then assign the target |
| DragDrop.MoveBetweenCells | frontend/public/js/drag-drop.js:347-413 | sends those requests; when the move goes on the target shows the nurse and the source does not, when stopped nothing changes |
| DragDrop.MoveBetweenCellsByLabel | frontend/public/js/planning.js:1010-1062 | reset the source, then assign the label only when the reset succeeded; moved exactly when both succeed |
| DragDrop.UniqueDates | frontend/public/js/drag-drop.js:449-483 | the distinct dates of the cells, each once, in first-seen order |
| DragDrop.DatesOf | frontend/public/js/drag-drop.js:449-483 | the `data-date` of every cell, in order |
| DragDrop.Answered | frontend/public/js/drag-drop.js:449-483 | the loop runs over the leading dates the server answers and stops at the first it does not |
| DragDrop.AnsweredAt | frontend/public/js/drag-drop.js:449-483 | that stopping point is unique |
| DragDrop.MarkClasses | frontend/public/js/drag-drop.js:449-483 | `nurse-unavailable` is shown exactly when marked, other classes kept |
| DragDrop.ClearUnavailable | frontend/public/js/drag-drop.js:449-483 | every cell loses `nurse-unavailable` |
| DragDrop.MarkDate | frontend/public/js/drag-drop.js:449-483 | every cell of that date except the source cell gains `nurse-unavailable` |
| DragDrop.MarkedByStep | frontend/public/js/drag-drop.js:449-483 | one more checked date marks the cells it hits exactly when the nurse is busy then |
| DragDrop.MarkStep | frontend/public/js/drag-drop.js:449-483 | one turn of the loop keeps each cell's marking exact for the dates checked |
| DragDrop.MarkedUpToStart | frontend/public/js/drag-drop.js:449-483 | once cleared, no cell is marked |
| DragDrop.MarkAnswered | frontend/public/js/drag-drop.js:449-483 | the loop leaves each cell marked exactly by the answered dates |
| DragDrop.MarkUnavailableDays | frontend/public/js/drag-drop.js:449-483 | each cell ends up marked exactly when one of the answered dates hits it and the nurse is busy then |
| DragDrop.MarkedWhenAllAnswered | frontend/public/js/drag-drop.js:449-483 | when every date is answered, a cell is marked exactly when the nurse is unavailable on its date and it is not the source cell |
| NurseList.FormOf | frontend/public/js/infirmiers.js:88-93 | names trimmed, status as chosen, `present` 1 exactly when checked and 0 otherwise |
| NurseList.MaxId | frontend/public/js/infirmiers.js:119-126 | at least 0, no smaller than any id, and either 0 or one of the ids |
| NurseList.NewId | frontend/public/js/infirmiers.js:119-126 | a new id is positive and larger than every id in the list |
| NurseList.NewIdOfEmpty | frontend/public/js/infirmiers.js:119-126 | the first nurse added to an empty list gets id 1 |
| NurseList.FindIndex | frontend/public/js/infirmiers.js:266-271 | the first position holding the id, or −1 when no record has it |
| NurseList.Merge | frontend/public/js/infirmiers.js:106-117 | every form field replaces the nurse's; the id stays |
| NurseList.FillOf | frontend/public/js/infirmiers.js:232-239 | the form shows the nurse's names and status, checked exactly when present |
| NurseList.EditSubmitRoundTrip | frontend/public/js/infirmiers.js:212-252 | submitting the filled-in form unchanged is accepted and writes the nurse back unchanged |
| NurseList.EditKeepsIds | frontend/public/js/infirmiers.js:106-117 | an edit keeps every id in its place |
| NurseList.EditKeepsUnique | frontend/public/js/infirmiers.js:106-117 | an edit keeps ids unique |
| NurseList.AddKeepsUnique | frontend/public/js/infirmiers.js:119-126 | an added nurse's id is new, so ids stay unique |
| NurseList.RemoveAt | frontend/public/js/infirmiers.js:266-271 | `splice(i, 1)` removes one record and keeps all the others |
| NurseList.RemoveAtIndex | frontend/public/js/infirmiers.js:266-271 | records after the removed one shift down by one |
| NurseList.DeleteRemovesOne | frontend/public/js/infirmiers.js:257-291 | deleting by id removes exactly that record; no record keeps the id; ids stay unique |
| NurseList.RemoveKeepsUnique | frontend/public/js/infirmiers.js:266-271 | after a removal no record has the removed id and ids stay unique |
| NurseList.StatusClass | frontend/public/js/infirmiers.js:187 | the class starts with `status-` |
| NurseList.StatusClassPlain | frontend/public/js/infirmiers.js:187 | a status without `*` is only lower-cased |
| NurseList.StatusClassStar | frontend/public/js/infirmiers.js:187 | only the first `*` becomes `star` |
| NurseList.NurseDirectory.Load | frontend/public/js/infirmiers.js:38-60 | the displayed list becomes the mock list |
| NurseList.NurseDirectory.ResetForm | frontend/public/js/infirmiers.js:296-302 | back to adding, with no nurse being edited |
| NurseList.NurseDirectory.Edit | frontend/public/js/infirmiers.js:212-252 | nothing changes for an unknown id; otherwise the form is filled from that nurse and edit mode is set |
| NurseList.NurseDirectory.Submit | frontend/public/js/infirmiers.js:85-168 | rejected, changing nothing, exactly when a name is empty; otherwise the edit or addition takes effect; ids stay unique |
| NurseList.NurseDirectory.Store | frontend/public/js/infirmiers.js:106-161 | an edit merges the nurse being edited, or fails when it is gone; an addition appends a nurse with a new id; on success the list reloads and the form resets |
| NurseList.NurseDirectory.Delete | frontend/public/js/infirmiers.js:257-291 | deleted exactly when confirmed and the id exists, removing that record and reloading; otherwise nothing changes; ids stay unique |
| StatsChart.ColorForIndex | frontend/public/js/stats.js:10-13 | the hue is 47·i mod 360, at 65% saturation and 45% lightness |
| StatsChart.ColorsRepeatEvery360 | frontend/public/js/stats.js:10-13 | two indices share a colour exactly when they are equal mod 360 |
| StatsChart.DistinctColors | frontend/public/js/stats.js:10-13 | indices below 360 all get different colours |
| StatsChart.BuildDatasets | frontend/public/js/stats.js:21-35 | one line per entry, in order, with its label and data, coloured by its position |
| StatsChart.BuildDatasetsPrefix | frontend/public/js/stats.js:21-35 | appending entries never changes the lines already built |
| StatsChart.BuildDatasetsDistinct | frontend/public/js/stats.js:21-35 | in a chart of at most 360 lines no two lines share a colour |
| StatsChart.ChartOf | frontend/public/js/stats.js:37-87 | the labels are the fetched rooms (or none), with one line per fetched dataset |
| StatsChart.StatsChartManager.Init | frontend/public/js/stats.js:37-87 | nothing when already initialised, without a canvas or on a failed fetch; otherwise the chart is built from the data and only then flagged |
| StatsChart.StatsChartManager.Refresh | frontend/public/js/stats.js:89-103 | a failed fetch changes nothing; no chart defers to `init`; an existing chart gets the new data and one update |

## Left out

- Network, database and DOM: SQLite is modelled as maps, `fetch` replies and
  server answers as parameters, and the rendered HTML (`innerHTML`, message boxes,
  `alert`) is not modelled.
- `confirm` is a boolean parameter. The chart itself (Chart.js, the `tension`
  value, `hsl(...)` text) is not modelled.
- The API branches of `infirmiers.js` are not modelled: only the mock mode
  (`USE_MOCK`) is.
- Time zones: `toISOString()` can shift a local midnight to the previous UTC day.
  The model takes a date as its day number, with no time-zone shift.
- Locale month names in the week title are not modelled, only month numbers.
- `parseInt` giving NaN for a missing `data-day` is not modelled.
- Promise interleaving is not modelled: requests are modelled in the order the
  code issues them, with replies given up front.
- The `loading` class on the row headers during the week-wide change is not
  modelled.
- Not modelled among the planning page's functions: `handleRoomStateChange`,
  `addRoomStateControlsToAllCells`, `loadRoomStates`, `loadWeekData`,
  `updateTableHeadersWithDates` and the rendering part of
  `updateVisualAssignment`. They only fetch and redraw.
- Not modelled among the routes: `get_infirmiers`, `get_statistiques` (apart from
  its label format) and the other GET routes of both APIs. They only read tables.
- Routes.Store: the nurse-table routes of `routes.py` are not modelled:
  `delete_infirmier` (172-196), `update_infirmier` (199-236) and `add_infirmier`
  (239-275). The invariant is proved only for a nurse table the store never
  changes. A rename or status change alters which nurse a stored label resolves
  to, and a delete drops the nurse's statistics row. After either, the counters
  no longer match the days already stored, and nothing repairs them.
  `LegacyApi` models the older API's nurse add and update routes, on that API's
  own tables; `app.py` has no delete route.
- `routes_new.py`, `app_clean.py`, `script.js`, the database scripts and the
  server are not part of this model.
- `markUnavailableDays` is modelled in full, but nothing in the front end calls
  it.
- `moveInfirmierBetweenCells` is defined in both `drag-drop.js` and `planning.js`.
  The page that loads the two scripts is not part of this model, so which one
  wins is not known: if `planning.js` loads after `drag-drop.js`, its definition
  (by label) is the one called. Both are modelled, as
  `DragDrop.MoveBetweenCells` and `DragDrop.MoveBetweenCellsByLabel`.
- LegacyApi.Database.UpdateEmploisDuTemps: `existing_date` truthiness is modelled
  as `date != ""`. The URL parameter is never empty in practice.
- LegacyApi.StatsAfter: counters are non-negative integers or NULL. A NULL counter
  stays NULL (the room is absent from the row), because `NULL + 1` is NULL in SQL.
- Calendar.CivilOf: its contract states only the ranges of month and day. The
  Gregorian conversion itself is its body and is not restated.
- StatsChart.ChartOf: its contract states labels and line count only. The lines
  themselves are specified by `StatsChart.BuildDatasets`.
- Text.Lower: only the ASCII capitals A–Z are lowered. `toLowerCase` also lowers
  non-ASCII capitals (`É` to `é`), which the model keeps unchanged.
- Text.IsSpace: only ASCII whitespace (space, tab, line feed, vertical tab, form
  feed, carriage return) counts. Python's `strip()` also removes `\x1c`–`\x1f`,
  `\x85` and Unicode spaces, and JavaScript's `trim()` also removes U+00A0,
  U+FEFF and Unicode spaces. `Text.Strip` inherits this.
- Routes.Store.CheckNurseAvailability: a JSON `null` for `date`, `label` or
  `infirmierId` is modelled like a missing key. The code tests key presence, so
  a present `null` passes the 400 test, and a `null` date then finds no row
  and answers "available".
- Routes.Store.ResetAssignment: a JSON `null` date or room is modelled like a
  missing key (400). The code tests key presence, so a present `null` date
  finds no row and answers 404, and a `null` room on a stored day makes the
  row lookup raise and answers 500.
- Routes.Store.UpdateSalleState: a JSON `null` date is modelled like a missing
  key (400). The code tests key presence, so it goes on to insert a row whose
  date is NULL, which the following updates never match. A `null` room fails
  the room name test (400) in both.
- Text.Strip: its contract states only that the result is stripped. Exactly what
  it removes is stated by `Text.StripPadded`, `Text.TrimLeft` and
  `Text.TrimRight`.

## Findings

| source | as written | input that shows it | evidently intended | confidence | as-written member | corrected member |
|---|---|---|---|---|---|---|
| backend/api/routes.py:398-407 | re-assigning the label a cell already holds increments its owner's counter again | a cell of `salle16` holding `"Ana Roy - J"`, assigned `"Ana Roy - J"` once more: the counter rises to 2 for one day | the counters change only when the cell's value changes, so each counter keeps equalling the days held | not executed | Bookkeeping.AssignAsWrittenBreaksConsistency | Bookkeeping.AssignPreservesConsistency |
| backend/api/app.py:315-346 | the PUT commits the new row before the counter helper reads the "old" row, so it compares the body with itself | stored day with `salle16 = 1`, PUT body `{"salle16": 2}`: neither counter changes | nurse 1 loses the day in `salle16` and nurse 2 gains it | not executed | LegacyApi.PutAsWrittenMissesMove | LegacyApi.ReassignMovesCounter |
| frontend/public/js/drag-drop.js:200-202 | `handleDrop` rejects any payload without `id`, and the payload of a nurse dragged out of a cell has none | dragging a placed nurse from one open cell to another always ends in the error branch | a labelled payload from a cell is accepted and moved | not executed | DragDrop.CellDragNeverMoves | DragDrop.CellDragMoves |
