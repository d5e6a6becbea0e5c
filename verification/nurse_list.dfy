/** The nurse list page in its mock mode: an in-memory list of nurses that the
    add/edit form and the delete button change, with the flags that tell an
    edit from an add. */
module NurseList {
  import opened Wrappers
  import opened Text

  /** A nurse of the mock list; `present` is 1 or 0. */
  datatype MockNurse = MockNurse(id: int, nom: string, prenom: string, status: string, present: int)

  /** The raw values of the form's inputs. */
  datatype FormFields = FormFields(nom: string, prenom: string, status: string, checked: bool)

  /** The record the form submits. */
  datatype Form = Form(nom: string, prenom: string, status: string, present: int)

  /** The form data: names trimmed, status as chosen, the check box as 1 or 0. */
  function FormOf(f: FormFields): (r: Form)
    ensures r.nom == Strip(f.nom) && r.prenom == Strip(f.prenom) && r.status == f.status
    ensures r.present == 1 <==> f.checked
    ensures r.present == 0 <==> !f.checked
  {
    Form(Strip(f.nom), Strip(f.prenom), f.status, if f.checked then 1 else 0)
  }

  /** The check the form applies before anything else: both names non-empty. */
  predicate Acceptable(r: Form) {
    r.nom != "" && r.prenom != ""
  }

  /** The four nurses the page starts from. */
  const MockData: seq<MockNurse> := [
    MockNurse(1, "Dupont", "Marie", "J1", 1),
    MockNurse(2, "Martin", "Pierre", "J3", 1),
    MockNurse(3, "Lefebvre", "Sophie", "J", 0),
    MockNurse(4, "Bernard", "Thomas", "J1*", 1)
  ]

  function Ids(s: seq<MockNurse>): (r: seq<int>)
    ensures |r| == |s|
    ensures forall i :: 0 <= i < |s| ==> r[i] == s[i].id
  {
    seq(|s|, i requires 0 <= i < |s| => s[i].id)
  }

  /** No two nurses share an id. */
  predicate UniqueIds(s: seq<MockNurse>) {
    forall i, j :: 0 <= i < j < |s| ==> s[i].id != s[j].id
  }

  /** `Math.max(0, ...ids)`. */
  function MaxId(ids: seq<int>): (m: int)
    ensures m >= 0
    ensures forall i :: 0 <= i < |ids| ==> ids[i] <= m
    ensures m == 0 || m in ids
  {
    if ids == [] then 0
    else
      var rest := MaxId(ids[1..]);
      if ids[0] > rest then ids[0] else rest
  }

  /** The id given to an added nurse: one more than the largest id, at least 1. */
  function NewId(ids: seq<int>): (n: int)
    ensures n >= 1
    ensures forall i :: 0 <= i < |ids| ==> ids[i] < n
    ensures n - 1 == 0 || n - 1 in ids
  {
    MaxId(ids) + 1
  }

  /** On an empty list the first id is 1. */
  lemma NewIdOfEmpty()
    ensures NewId([]) == 1
  {
  }

  /** `findIndex(inf => inf.id === id)`: the first position holding `id`, or
      -1. An id of `null` never matches. */
  function FindIndex(s: seq<MockNurse>, id: Option<int>): (i: int)
    ensures -1 <= i < |s|
    ensures i >= 0 ==> Some(s[i].id) == id && forall j :: 0 <= j < i ==> Some(s[j].id) != id
    ensures i == -1 ==> forall j :: 0 <= j < |s| ==> Some(s[j].id) != id
  {
    if s == [] then -1
    else if Some(s[0].id) == id then 0
    else
      var k := FindIndex(s[1..], id);
      if k == -1 then -1 else k + 1
  }

  /** `{...nurse, ...formData}`: every form field replaces the nurse's, the id stays. */
  function Merge(n: MockNurse, r: Form): (m: MockNurse)
    ensures m.id == n.id
    ensures Form(m.nom, m.prenom, m.status, m.present) == r
  {
    MockNurse(n.id, r.nom, r.prenom, r.status, r.present)
  }

  /** The form `editInfirmier` fills in for a nurse. */
  function FillOf(n: MockNurse): (f: FormFields)
    ensures f.nom == n.nom && f.prenom == n.prenom && f.status == n.status
    ensures f.checked <==> n.present == 1
  {
    FormFields(n.nom, n.prenom, n.status, n.present == 1)
  }

  /** Submitting the form `editInfirmier` filled in, unchanged, writes the nurse
      back as it was, provided its names are non-empty and trimmed and `present`
      is 0 or 1. */
  lemma EditSubmitRoundTrip(n: MockNurse)
    requires Stripped(n.nom) && Stripped(n.prenom) && n.nom != "" && n.prenom != ""
    requires n.present == 0 || n.present == 1
    ensures Acceptable(FormOf(FillOf(n)))
    ensures Merge(n, FormOf(FillOf(n))) == n
  {
    StripStripped(n.nom);
    StripStripped(n.prenom);
  }

  /** An edit keeps every id in its place. */
  lemma {:induction false} EditKeepsIds(s: seq<MockNurse>, i: nat, r: Form)
    requires i < |s|
    ensures Ids(s[i := Merge(s[i], r)]) == Ids(s)
  {
    var t := s[i := Merge(s[i], r)];
    assert forall k :: 0 <= k < |s| ==> Ids(t)[k] == Ids(s)[k];
  }

  /** An edit keeps ids unique. */
  lemma EditKeepsUnique(s: seq<MockNurse>, i: nat, r: Form)
    requires UniqueIds(s) && i < |s|
    ensures UniqueIds(s[i := Merge(s[i], r)])
  {
    EditKeepsIds(s, i, r);
    var t := s[i := Merge(s[i], r)];
    assert forall k :: 0 <= k < |s| ==> t[k].id == Ids(t)[k] == Ids(s)[k] == s[k].id;
  }

  /** An added nurse's id is new, so ids stay unique. */
  lemma AddKeepsUnique(s: seq<MockNurse>, r: Form)
    requires UniqueIds(s)
    ensures UniqueIds(s + [MockNurse(NewId(Ids(s)), r.nom, r.prenom, r.status, r.present)])
  {
    var n := NewId(Ids(s));
    assert forall k :: 0 <= k < |s| ==> Ids(s)[k] < n;
  }

  /** Removing the record at `i` keeps the others. */
  lemma RemoveAt(s: seq<MockNurse>, i: nat)
    requires i < |s|
    ensures |s[..i] + s[i + 1..]| == |s| - 1
    ensures multiset(s[..i] + s[i + 1..]) + multiset{s[i]} == multiset(s)
  {
    assert s == s[..i] + [s[i]] + s[i + 1..];
  }

  /** After removing the record at `i`, position `k` holds the record that was
      at `k` before `i` and at `k + 1` from `i` on. */
  lemma RemoveAtIndex(s: seq<MockNurse>, i: nat, k: nat)
    requires i < |s| && k < |s| - 1
    ensures (s[..i] + s[i + 1..])[k] == s[if k < i then k else k + 1]
  {
  }

  /** Deleting the nurse found with `id` removes exactly that one record: no
      record keeps its id, all the others remain, and ids stay unique. */
  lemma DeleteRemovesOne(s: seq<MockNurse>, id: int)
    requires UniqueIds(s)
    requires FindIndex(s, Some(id)) >= 0
    ensures var i := FindIndex(s, Some(id));
      var t := s[..i] + s[i + 1..];
      && |t| == |s| - 1
      && (forall k :: 0 <= k < |t| ==> t[k].id != id)
      && multiset(t) + multiset{s[i]} == multiset(s)
      && UniqueIds(t)
  {
    var i := FindIndex(s, Some(id));
    RemoveAt(s, i);
    RemoveKeepsUnique(s, i);
  }

  /** Removing the record at `i` from a list with unique ids leaves no record
      with its id, and the ids unique. */
  lemma RemoveKeepsUnique(s: seq<MockNurse>, i: nat)
    requires UniqueIds(s) && i < |s|
    ensures var t := s[..i] + s[i + 1..];
      && (forall k :: 0 <= k < |t| ==> t[k].id != s[i].id)
      && UniqueIds(t)
  {
    var t := s[..i] + s[i + 1..];
    forall k | 0 <= k < |t|
      ensures t[k].id != s[i].id
    {
      RemoveAtIndex(s, i, k);
    }
    forall a, b | 0 <= a < b < |t|
      ensures t[a].id != t[b].id
    {
      RemoveAtIndex(s, i, a);
      RemoveAtIndex(s, i, b);
    }
  }

  /** The outcome of a form submission. */
  datatype SubmitOutcome =
    | Rejected      // a name left empty
    | NotFound      // the nurse under edit is no longer in the list
    | Modified
    | Added(id: int)

  /** `"status-" + status.replace('*', 'star').toLowerCase()`. */
  function StatusClass(status: string): (r: string)
    ensures StartsWith(r, "status-")
  {
    assert ("status-" + Lower(ReplaceFirst(status, "*", "star")))[..7] == "status-";
    "status-" + Lower(ReplaceFirst(status, "*", "star"))
  }

  /** A status without '*' is only lower-cased. */
  lemma StatusClassPlain(status: string)
    requires '*' !in status
    ensures StatusClass(status) == "status-" + Lower(status)
  {
    ReplaceFirstAbsent(status, '*', "star");
  }

  /** Only the first '*' becomes "star". */
  lemma StatusClassStar(a: string, b: string)
    requires '*' !in a
    ensures StatusClass(a + "*" + b) == "status-" + Lower(a) + "star" + Lower(b)
  {
    ReplaceFirstChar(a, '*', b, "star");
    LowerAppend(a, "star");
    LowerAppend(a + "star", b);
    assert Lower("star") == "star";
  }

  /** The module's state: the mock list (`MOCK_DATA.infirmiers`), the list on
      display (`infirmiersList`) and the edit flags. */
  class NurseDirectory {
    var mock: seq<MockNurse>
    var list: seq<MockNurse>
    var isEditing: bool
    var editingId: Option<int>

    /** Ids are unique in the mock list. */
    predicate Valid()
      reads this
    {
      UniqueIds(mock)
    }

    constructor ()
      ensures mock == MockData && list == [] && !isEditing && editingId == None
      ensures Valid()
    {
      mock := MockData;
      list := [];
      isEditing := false;
      editingId := None;
    }

    /** `loadInfirmiers` in mock mode: the displayed list becomes a copy of the mock list. */
    method Load()
      modifies this`list
      ensures list == mock
    {
      list := mock;
    }

    /** `resetInfirmierForm`: back to adding. */
    method ResetForm()
      modifies this`isEditing, this`editingId
      ensures !isEditing && editingId == None
    {
      isEditing := false;
      editingId := None;
    }

    /** `editInfirmier`: the form filled in from the nurse with that id, and the
        edit flags set; nothing changes when there is no such nurse. */
    method Edit(id: int) returns (fill: Option<FormFields>)
      modifies this`isEditing, this`editingId
      ensures var i := FindIndex(mock, Some(id));
        if i == -1 then fill == None && isEditing == old(isEditing) && editingId == old(editingId)
        else fill == Some(FillOf(mock[i])) && isEditing && editingId == Some(id)
    {
      var i := FindIndex(mock, Some(id));
      if i == -1 {
        return None;
      }
      fill := Some(FillOf(mock[i]));
      isEditing := true;
      editingId := Some(id);
    }

    /** `handleInfirmierFormSubmit` in mock mode. An empty name rejects the
        submission, changing nothing; otherwise the form data is stored. */
    method Submit(fields: FormFields) returns (o: SubmitOutcome)
      modifies this`mock, this`list, this`isEditing, this`editingId
      ensures o == Rejected <==> !Acceptable(FormOf(fields))
      ensures o == Rejected ==>
        mock == old(mock) && list == old(list) && isEditing == old(isEditing) && editingId == old(editingId)
      ensures o != Rejected ==> StoreEffect(FormOf(fields), o, old(mock), old(list), old(isEditing), old(editingId))
      ensures old(Valid()) ==> Valid()
    {
      var r := FormOf(fields);
      if r.nom == "" || r.prenom == "" {
        return Rejected;
      }
      o := Store(r);
    }

    /** What storing the form data `r` does, from the state `mock`, `list`,
        `isEditing`, `editingId`: in edit mode the nurse with `editingId` is
        merged with the form, or the submission fails when it is gone;
        otherwise a nurse with a new id is appended. On success the list is
        reloaded and the form reset; on failure nothing changes. */
    ghost predicate StoreEffect(r: Form, o: SubmitOutcome, mock0: seq<MockNurse>, list0: seq<MockNurse>,
                                isEditing0: bool, editingId0: Option<int>)
      reads this
    {
      var i := FindIndex(mock0, editingId0);
      && (o == NotFound <==> isEditing0 && i == -1)
      && (o == Modified <==> isEditing0 && i >= 0)
      && (o.Added? <==> !isEditing0)
      && (o == Modified ==> mock == mock0[i := Merge(mock0[i], r)])
      && (o.Added? ==> o.id == NewId(Ids(mock0)) && mock == mock0 + [MockNurse(o.id, r.nom, r.prenom, r.status, r.present)])
      && (o == NotFound ==> mock == mock0 && list == list0 && isEditing == isEditing0 && editingId == editingId0)
      && (o != NotFound ==> list == mock && !isEditing && editingId == None)
    }

    /** The store step of `handleInfirmierFormSubmit`, once the form is accepted. */
    method Store(r: Form) returns (o: SubmitOutcome)
      modifies this`mock, this`list, this`isEditing, this`editingId
      ensures o != Rejected
      ensures StoreEffect(r, o, old(mock), old(list), old(isEditing), old(editingId))
      ensures old(Valid()) ==> Valid()
    {
      if isEditing {
        var i := FindIndex(mock, editingId);
        if i == -1 {
          return NotFound;
        }
        if Valid() {
          EditKeepsUnique(mock, i, r);
        }
        mock := mock[i := Merge(mock[i], r)];
        o := Modified;
      } else {
        var id := NewId(Ids(mock));
        if Valid() {
          AddKeepsUnique(mock, r);
        }
        mock := mock + [MockNurse(id, r.nom, r.prenom, r.status, r.present)];
        o := Added(id);
      }
      list := mock;
      isEditing := false;
      editingId := None;
    }

    /** `deleteInfirmier` in mock mode: nothing when the confirmation is
        declined; otherwise the nurse with that id is removed and the list
        reloaded, or the deletion fails, changing nothing, when there is none. */
    method Delete(id: int, confirmed: bool) returns (deleted: bool)
      modifies this`mock, this`list
      ensures var i := FindIndex(old(mock), Some(id));
        && (deleted <==> confirmed && i >= 0)
        && (deleted ==> mock == old(mock)[..i] + old(mock)[i + 1..] && list == mock)
        && (!deleted ==> mock == old(mock) && list == old(list))
      ensures old(Valid()) ==> Valid()
    {
      if !confirmed {
        return false;
      }
      var i := FindIndex(mock, Some(id));
      if i == -1 {
        return false;
      }
      if Valid() {
        DeleteRemovesOne(mock, id);
      }
      mock := mock[..i] + mock[i + 1..];
      Load();
      deleted := true;
    }
  }
}
