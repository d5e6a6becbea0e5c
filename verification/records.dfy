/** The three record classes of the back end (`Statistique`, `EmploisDuTemps`,
    `Infirmier`) and their conversion to and from a JSON-like dictionary. Field
    values are untyped in the source, so they are modelled as dynamic values. */
module Records {
  import opened Rooms

  /** A Python value as it appears in these dictionaries: `None`, an integer,
      a boolean or a string. */
  datatype Value = Null | Int(n: int) | Bool(b: bool) | Text(s: string)

  type Dict = map<string, Value>

  /** Python truthiness: `None`, 0, `False` and the empty string are false. */
  predicate IsTruthy(v: Value) {
    match v
    case Null => false
    case Int(n) => n != 0
    case Bool(b) => b
    case Text(s) => s != ""
  }

  /** `data.get(key, default)`. */
  function Get(data: Dict, key: string, default: Value): (v: Value)
    ensures key in data ==> v == data[key]
    ensures key !in data ==> v == default
  {
    if key in data then data[key] else default
  }

  /** The column names of the twelve rooms, in `SALLE_NAMES` order. */
  function RoomKeyList(): (ks: seq<string>)
    ensures |ks| == 12
    ensures forall i :: 0 <= i < 12 ==> ks[i] == Key(SalleNames[i])
  {
    seq(12, i requires 0 <= i < 12 => Key(SalleNames[i]))
  }

  /** The column names of the twelve rooms. */
  function RoomKeys(): (ks: set<string>)
    ensures forall k :: k in ks <==> exists r :: Key(r) == k
  {
    SalleNamesEnumerates();
    set r | r in SalleNames :: Key(r)
  }

  predicate Distinct<T(==)>(s: seq<T>) {
    forall i, j :: 0 <= i < j < |s| ==> s[i] != s[j]
  }

  /** A list without repetition has as many elements as its set. */
  lemma {:induction false} DistinctCard<T>(s: seq<T>)
    requires Distinct(s)
    ensures |set x | x in s| == |s|
  {
    if s != [] {
      var init := s[..|s| - 1];
      assert Distinct(init);
      DistinctCard(init);
      assert (set x | x in s) == (set x | x in init) + {s[|s| - 1]};
      assert s[|s| - 1] !in init;
    }
  }

  /** The column names are twelve distinct names. */
  lemma RoomKeyListDistinct()
    ensures Distinct(RoomKeyList())
    ensures (set k | k in RoomKeyList()) == RoomKeys()
  {
    SalleNamesEnumerates();
    var ks := RoomKeyList();
    forall i, j | 0 <= i < j < 12 ensures ks[i] != ks[j] {
      KeyInjective(SalleNames[i], SalleNames[j]);
    }
    forall k | k in RoomKeys() ensures k in ks {
      var r :| Key(r) == k;
      var i :| 0 <= i < 12 && SalleNames[i] == r;
      assert ks[i] == k;
    }
  }

  /** A dictionary with two header fields and the twelve room columns has 14 keys. */
  lemma FourteenKeys(a: string, b: string)
    requires a != b && a !in RoomKeys() && b !in RoomKeys()
    ensures |{a, b} + RoomKeys()| == 14
  {
    RoomKeyListDistinct();
    DistinctCard(RoomKeyList());
    var ks := RoomKeys();
    assert |ks + {a}| == 13;
    assert |ks + {a} + {b}| == 14;
    assert {a, b} + ks == ks + {a} + {b};
  }

  /** Every room of a record is present. */
  predicate Complete(rooms: map<Room, Value>) {
    forall r: Room :: r in rooms
  }

  /** The room values of a dictionary, each `data.get(<room>, default)`. */
  function RoomsFrom(data: Dict, default: Value): (rooms: map<Room, Value>)
    ensures Complete(rooms)
    ensures forall r :: rooms[r] == Get(data, Key(r), default)
  {
    SalleNamesEnumerates();
    map r: Room | r in SalleNames :: Get(data, Key(r), default)
  }

  /** The room columns of a record as dictionary entries. */
  function RoomsDict(rooms: map<Room, Value>): (d: Dict)
    requires Complete(rooms)
    ensures d.Keys == RoomKeys()
    ensures forall r :: Key(r) in d && d[Key(r)] == rooms[r]
  {
    var d := map k | k in RoomKeys() :: rooms[FromKey(k).value];
    forall r ensures Key(r) in d && d[Key(r)] == rooms[r] {
      FromKeyKey(r);
    }
    d
  }

  /** The room columns of a record under two header fields. */
  function WithHeaders(rooms: map<Room, Value>, a: string, va: Value, b: string, vb: Value): (d: Dict)
    requires Complete(rooms)
    requires a != b && a !in RoomKeys() && b !in RoomKeys()
    ensures d.Keys == {a, b} + RoomKeys()
    ensures |d| == 14
    ensures d[a] == va && d[b] == vb
    ensures forall r :: d[Key(r)] == rooms[r]
  {
    var d := RoomsDict(rooms)[a := va][b := vb];
    FourteenKeys(a, b);
    d
  }

  /** No room column is named like one of the header fields. */
  lemma HeaderNotRoom(h: string)
    requires h in {"id", "infirmierID", "date"}
    ensures h !in RoomKeys()
  {
  }

  // ----- statistique -----

  /** A `statistique` row: its id, the nurse it counts for and one counter
      per room. */
  datatype Statistique = Statistique(id: Value, infirmierID: Value, counts: map<Room, Value>)

  /** `Statistique(...)`: arguments not given are `None` for the ids and 0 for
      the counters; `counts` holds the counters passed by keyword. */
  function NewStatistique(id: Value, infirmierID: Value, counts: map<Room, Value>): (s: Statistique)
    ensures s.id == id && s.infirmierID == infirmierID
    ensures Complete(s.counts)
    ensures forall r :: s.counts[r] == (if r in counts then counts[r] else Int(0))
  {
    SalleNamesEnumerates();
    Statistique(id, infirmierID, map r: Room | r in SalleNames :: if r in counts then counts[r] else Int(0))
  }

  /** `Statistique.to_dict`. */
  function StatistiqueToDict(s: Statistique): (d: Dict)
    requires Complete(s.counts)
    ensures d.Keys == {"id", "infirmierID"} + RoomKeys()
    ensures |d| == 14
    ensures d["id"] == s.id && d["infirmierID"] == s.infirmierID
    ensures forall r :: d[Key(r)] == s.counts[r]
  {
    HeaderNotRoom("id");
    HeaderNotRoom("infirmierID");
    WithHeaders(s.counts, "id", s.id, "infirmierID", s.infirmierID)
  }

  /** `Statistique.from_dict`: missing ids are `None`, missing counters 0. */
  function StatistiqueFromDict(data: Dict): (s: Statistique)
    ensures s.id == Get(data, "id", Null) && s.infirmierID == Get(data, "infirmierID", Null)
    ensures Complete(s.counts)
    ensures forall r :: s.counts[r] == Get(data, Key(r), Int(0))
  {
    Statistique(Get(data, "id", Null), Get(data, "infirmierID", Null), RoomsFrom(data, Int(0)))
  }

  /** `from_dict(s.to_dict())` gives back `s`. */
  lemma StatistiqueRoundTrip(s: Statistique)
    requires Complete(s.counts)
    ensures StatistiqueFromDict(StatistiqueToDict(s)) == s
  {
    var d := StatistiqueToDict(s);
    var t := StatistiqueFromDict(d);
    forall r ensures t.counts[r] == s.counts[r] {
      assert Key(r) in d;
    }
    assert t.counts == s.counts;
  }

  /** The constructor with nothing given is the row of an empty dictionary:
      both ids `None`, all twelve counters 0. */
  lemma StatistiqueDefaults()
    ensures NewStatistique(Null, Null, map[]) == StatistiqueFromDict(map[])
    ensures forall r :: NewStatistique(Null, Null, map[]).counts[r] == Int(0)
  {
    var a := NewStatistique(Null, Null, map[]);
    var b := StatistiqueFromDict(map[]);
    assert a.counts == b.counts;
  }

  // ----- emploisDuTemps -----

  /** An `emploisDuTemps` row: its id, its date and the label of each room. */
  datatype EmploisDuTemps = EmploisDuTemps(id: Value, date: Value, cells: map<Room, Value>)

  /** `EmploisDuTemps(...)`: everything not given is `None`. */
  function NewEmploisDuTemps(id: Value, date: Value, cells: map<Room, Value>): (e: EmploisDuTemps)
    ensures e.id == id && e.date == date
    ensures Complete(e.cells)
    ensures forall r :: e.cells[r] == (if r in cells then cells[r] else Null)
  {
    SalleNamesEnumerates();
    EmploisDuTemps(id, date, map r: Room | r in SalleNames :: if r in cells then cells[r] else Null)
  }

  /** `EmploisDuTemps.to_dict`. */
  function EmploisDuTempsToDict(e: EmploisDuTemps): (d: Dict)
    requires Complete(e.cells)
    ensures d.Keys == {"id", "date"} + RoomKeys()
    ensures |d| == 14
    ensures d["id"] == e.id && d["date"] == e.date
    ensures forall r :: d[Key(r)] == e.cells[r]
  {
    HeaderNotRoom("id");
    HeaderNotRoom("date");
    WithHeaders(e.cells, "id", e.id, "date", e.date)
  }

  /** `EmploisDuTemps.from_dict`: every missing field is `None`. */
  function EmploisDuTempsFromDict(data: Dict): (e: EmploisDuTemps)
    ensures e.id == Get(data, "id", Null) && e.date == Get(data, "date", Null)
    ensures Complete(e.cells)
    ensures forall r :: e.cells[r] == Get(data, Key(r), Null)
  {
    EmploisDuTemps(Get(data, "id", Null), Get(data, "date", Null), RoomsFrom(data, Null))
  }

  /** `from_dict(e.to_dict())` gives back `e`. */
  lemma EmploisDuTempsRoundTrip(e: EmploisDuTemps)
    requires Complete(e.cells)
    ensures EmploisDuTempsFromDict(EmploisDuTempsToDict(e)) == e
  {
    var d := EmploisDuTempsToDict(e);
    var t := EmploisDuTempsFromDict(d);
    forall r ensures t.cells[r] == e.cells[r] {
      assert Key(r) in d;
    }
    assert t.cells == e.cells;
  }

  /** The constructor with nothing given is the row of an empty dictionary. */
  lemma EmploisDuTempsDefaults()
    ensures NewEmploisDuTemps(Null, Null, map[]) == EmploisDuTempsFromDict(map[])
    ensures forall r :: NewEmploisDuTemps(Null, Null, map[]).cells[r] == Null
  {
    var a := NewEmploisDuTemps(Null, Null, map[]);
    var b := EmploisDuTempsFromDict(map[]);
    assert a.cells == b.cells;
  }

  // ----- listeInfirmier -----

  /** A nurse record. */
  datatype Infirmier = Infirmier(id: Value, nom: Value, prenom: Value, status: Value, present: Value)

  /** `Infirmier(...)` with only the first four given: `present` is `True`. */
  function NewInfirmier(id: Value, nom: Value, prenom: Value, status: Value): (i: Infirmier)
    ensures i.present == Bool(true)
    ensures i.id == id && i.nom == nom && i.prenom == prenom && i.status == status
  {
    Infirmier(id, nom, prenom, status, Bool(true))
  }

  /** `Infirmier.to_dict`. */
  function InfirmierToDict(i: Infirmier): (d: Dict)
    ensures d.Keys == {"id", "nom", "prenom", "status", "present"}
    ensures |d| == 5
    ensures d["id"] == i.id && d["nom"] == i.nom && d["prenom"] == i.prenom
    ensures d["status"] == i.status && d["present"] == i.present
  {
    var d := map["id" := i.id, "nom" := i.nom, "prenom" := i.prenom, "status" := i.status, "present" := i.present];
    assert |d.Keys| == 5;
    d
  }

  /** `Infirmier.from_dict`: missing fields are `None`, except `present`,
      which is `True`. */
  function InfirmierFromDict(data: Dict): (i: Infirmier)
    ensures i.id == Get(data, "id", Null) && i.nom == Get(data, "nom", Null)
    ensures i.prenom == Get(data, "prenom", Null) && i.status == Get(data, "status", Null)
    ensures i.present == Get(data, "present", Bool(true))
  {
    Infirmier(Get(data, "id", Null), Get(data, "nom", Null), Get(data, "prenom", Null),
              Get(data, "status", Null), Get(data, "present", Bool(true)))
  }

  /** `from_dict(i.to_dict())` gives back `i`. */
  lemma InfirmierRoundTrip(i: Infirmier)
    ensures InfirmierFromDict(InfirmierToDict(i)) == i
  {
  }

  /** `from_dict` of a dictionary without `present` agrees with the constructor. */
  lemma InfirmierPresentDefault(data: Dict)
    requires "present" !in data
    ensures InfirmierFromDict(data)
            == NewInfirmier(Get(data, "id", Null), Get(data, "nom", Null), Get(data, "prenom", Null), Get(data, "status", Null))
  {
  }
}
