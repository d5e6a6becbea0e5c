/** The twelve rooms of the operating suite and the state a room can be put in
    for a day. */
module Rooms {
  import opened Wrappers

  datatype Room =
    | Salle16 | Salle17 | Salle18 | Salle19 | Salle20 | Salle21
    | Salle22 | Salle23 | Salle24 | Reveil1 | Reveil2 | Perinduction

  /** `SALLE_NAMES`: the rooms in the order every loop of the back end visits them. */
  const SalleNames: seq<Room> :=
    [Salle16, Salle17, Salle18, Salle19, Salle20, Salle21,
     Salle22, Salle23, Salle24, Reveil1, Reveil2, Perinduction]

  /** The column name of a room in the `emploisDuTemps` and `statistique` tables,
      also its key in JSON bodies and in the `data-room` attribute of a cell. */
  function Key(r: Room): string {
    match r
    case Salle16 => "salle16"
    case Salle17 => "salle17"
    case Salle18 => "salle18"
    case Salle19 => "salle19"
    case Salle20 => "salle20"
    case Salle21 => "salle21"
    case Salle22 => "salle22"
    case Salle23 => "salle23"
    case Salle24 => "salle24"
    case Reveil1 => "reveil1"
    case Reveil2 => "reveil2"
    case Perinduction => "perinduction"
  }

  /** `SALLE_NAMES` lists every room exactly once. */
  lemma SalleNamesEnumerates()
    ensures |SalleNames| == 12
    ensures forall r: Room :: r in SalleNames
    ensures forall i, j :: 0 <= i < j < |SalleNames| ==> SalleNames[i] != SalleNames[j]
  {
    forall r: Room ensures r in SalleNames {
      match r
      case Salle16 => assert SalleNames[0] == r;
      case Salle17 => assert SalleNames[1] == r;
      case Salle18 => assert SalleNames[2] == r;
      case Salle19 => assert SalleNames[3] == r;
      case Salle20 => assert SalleNames[4] == r;
      case Salle21 => assert SalleNames[5] == r;
      case Salle22 => assert SalleNames[6] == r;
      case Salle23 => assert SalleNames[7] == r;
      case Salle24 => assert SalleNames[8] == r;
      case Reveil1 => assert SalleNames[9] == r;
      case Reveil2 => assert SalleNames[10] == r;
      case Perinduction => assert SalleNames[11] == r;
    }
  }

  /** Distinct rooms have distinct column names. */
  lemma KeyInjective(a: Room, b: Room)
    ensures Key(a) == Key(b) ==> a == b
  {
  }

  /** The first room of `rooms` whose column name is `s`. */
  function FindKey(rooms: seq<Room>, s: string): (r: Option<Room>)
    ensures r.Some? ==> r.value in rooms && Key(r.value) == s
    ensures r.None? ==> forall x :: x in rooms ==> Key(x) != s
  {
    if rooms == [] then None
    else if Key(rooms[0]) == s then Some(rooms[0])
    else FindKey(rooms[1..], s)
  }

  /** `salle in SALLE_NAMES`, giving the room named `s` when there is one. */
  function FromKey(s: string): (r: Option<Room>)
    ensures r.Some? <==> exists x :: Key(x) == s
    ensures r.Some? ==> Key(r.value) == s
  {
    FindKey(SalleNames, s)
  }

  /** Column names and rooms are in one-to-one correspondence. */
  lemma FromKeyKey(r: Room)
    ensures FromKey(Key(r)) == Some(r)
  {
    KeyInjective(FromKey(Key(r)).value, r);
  }

  /** The state of a room for one day. A NULL `<room>_state` column is `Open`. */
  datatype RoomState = Open | Close | Unuse

  /** `state if state in ['close', 'unuse'] else None` (routes.py): the raw JSON
      `state` normalised, anything but the two closing words meaning open. */
  function NormaliseState(raw: Option<string>): (st: RoomState)
    ensures st == Close <==> raw == Some("close")
    ensures st == Unuse <==> raw == Some("unuse")
  {
    if raw == Some("close") then Close
    else if raw == Some("unuse") then Unuse
    else Open
  }
}
