/**
 * The add/edit form: the values it starts from when it opens, the edits the
 * user can make, and the decision taken on submit between dispatching
 * nothing, an update of the edit target, or an addition.
 */
module LocationModal {
  import opened Types
  import opened LocationContext

  /** The form's record: the four fields a user sees. */
  datatype Form = Form(name: string, notes: string, status: Status, coordinates: Coordinates)

  /** The values the form is reset to when nothing is being edited. */
  const BlankForm: Form := Form("", "", Wishlist, Coordinates(0.0, 0.0))

  /**
   * The reset effect: when the edit target or the modal flag changes, the
   * form takes the target's four fields, or the blank values without one.
   */
  function InitialForm(current: Option<Location>): (f: Form)
    ensures current.Some? ==>
      f.name == current.value.name && f.notes == current.value.notes
      && f.status == current.value.status && f.coordinates == current.value.coordinates
    ensures current.None? ==>
      f.name == "" && f.notes == "" && f.status == Wishlist && f.coordinates == Coordinates(0.0, 0.0)
  {
    match current
    case Some(l) => Form(l.name, l.notes, l.status, l.coordinates)
    case None => BlankForm
  }

  /**
   * What `handleChange` receives: a new value for the name input, the notes
   * text area or the status select. No input edits the coordinates.
   */
  datatype Edit = EditName(name: string) | EditNotes(notes: string) | EditStatus(status: Status)

  /** `handleChange`: the edited field takes the new value, the other three stay. */
  function ApplyEdit(f: Form, e: Edit): (r: Form)
    ensures r.coordinates == f.coordinates
    ensures r.name == (if e.EditName? then e.name else f.name)
    ensures r.notes == (if e.EditNotes? then e.notes else f.notes)
    ensures r.status == (if e.EditStatus? then e.status else f.status)
  {
    match e
    case EditName(n) => f.(name := n)
    case EditNotes(n) => f.(notes := n)
    case EditStatus(st) => f.(status := st)
  }

  /** A series of edits, in the order the user makes them. */
  function ApplyEdits(f: Form, es: seq<Edit>): (r: Form)
    ensures r.coordinates == f.coordinates
    decreases |es|
  {
    if es == [] then f else ApplyEdits(ApplyEdit(f, es[0]), es[1..])
  }

  // ---------------------------------------------------------------- trim

  /**
   * The characters `String.prototype.trim` removes: the ECMAScript
   * WhiteSpace and LineTerminator characters.
   */
  predicate IsWhitespace(c: char)
    ensures IsWhitespace(c) ==> c as int <= 0xFEFF
    ensures 'a' <= c <= 'z' || 'A' <= c <= 'Z' || '0' <= c <= '9' ==> !IsWhitespace(c)
  {
    || c == '\t' || c == '\n' || c == '\U{000B}' || c == '\U{000C}' || c == '\r'
    || c == ' ' || c == '\U{00A0}' || c == '\U{1680}' || ('\U{2000}' <= c <= '\U{200A}')
    || c == '\U{2028}' || c == '\U{2029}' || c == '\U{202F}' || c == '\U{205F}'
    || c == '\U{3000}' || c == '\U{FEFF}'
  }

  /** `s` with its leading whitespace removed: a suffix of `s`. */
  function TrimStart(s: string): (r: string)
    ensures |r| <= |s| && r == s[|s| - |r|..]
    ensures forall i :: 0 <= i < |s| - |r| ==> IsWhitespace(s[i])
    ensures r != [] ==> !IsWhitespace(r[0])
  {
    if s != [] && IsWhitespace(s[0]) then TrimStart(s[1..]) else s
  }

  /** `s` with its trailing whitespace removed: a prefix of `s`. */
  function TrimEnd(s: string): (r: string)
    ensures |r| <= |s| && r == s[..|r|]
    ensures forall i :: |r| <= i < |s| ==> IsWhitespace(s[i])
    ensures r != [] ==> !IsWhitespace(r[|r| - 1])
  {
    if s != [] && IsWhitespace(s[|s| - 1]) then TrimEnd(s[..|s| - 1]) else s
  }

  /**
   * `s.trim()`: empty exactly when `s` is all whitespace; otherwise it
   * neither starts nor ends with whitespace.
   */
  function Trim(s: string): (r: string)
    ensures r == [] <==> forall i :: 0 <= i < |s| ==> IsWhitespace(s[i])
    ensures r != [] ==> !IsWhitespace(r[0]) && !IsWhitespace(r[|r| - 1])
  {
    var t := TrimStart(s);
    var r := TrimEnd(t);
    assert r == [] ==> forall i :: 0 <= i < |s| ==> IsWhitespace(s[i]) by {
      if r == [] {
        assert t == [];
      }
    }
    assert r != [] ==> r[0] == t[0];
    r
  }

  /** A name the submit guard rejects: nothing left after trimming. */
  predicate IsBlank(name: string)
    ensures IsBlank(name) <==> forall i :: 0 <= i < |name| ==> IsWhitespace(name[i])
  {
    Trim(name) == ""
  }

  // ---------------------------------------------------------------- submit

  /** `{ ...currentLocation, ...formData }`: the target with the form's four fields laid over it. */
  function Overlay(target: Location, f: Form): (r: Location)
    ensures r.id == target.id && r.createdAt == target.createdAt
    ensures r.name == f.name && r.notes == f.notes && r.status == f.status && r.coordinates == f.coordinates
  {
    target.(name := f.name, notes := f.notes, status := f.status, coordinates := f.coordinates)
  }

  /** ADD_LOCATION's payload: the form itself. */
  function DraftOf(f: Form): Draft
  {
    Draft(f.name, f.coordinates, f.notes, f.status)
  }

  /**
   * `handleSubmit` as written: nothing when the name is blank; otherwise an
   * update whenever there is an edit target, and an addition only when
   * there is none. The update keeps the target's id and creation time and
   * takes name, notes, status and coordinates from the form.
   */
  function HandleSubmit(form: Form, current: Option<Location>): (r: Option<Action>)
    ensures r.None? <==> forall i :: 0 <= i < |form.name| ==> IsWhitespace(form.name[i])
    ensures r.Some? && current.Some? ==>
      r.value == UpdateLocation(Location(current.value.id, form.name, form.coordinates,
                                          form.notes, form.status, current.value.createdAt))
    ensures r.Some? && current.None? ==>
      r.value == AddLocation(Draft(form.name, form.coordinates, form.notes, form.status))
  {
    if IsBlank(form.name) then None
    else match current
      case Some(target) => Some(UpdateLocation(Overlay(target, form)))
      case None => Some(AddLocation(DraftOf(form)))
  }

  /**
   * `handleSubmit` as evidently intended: an edit target whose id is the
   * empty placeholder id (the one a map click opens the modal with) is a
   * new location and is added, not updated.
   */
  function HandleSubmitIntended(form: Form, current: Option<Location>): (r: Option<Action>)
    ensures r.None? <==> forall i :: 0 <= i < |form.name| ==> IsWhitespace(form.name[i])
    ensures r.Some? && current.Some? && current.value.id != "" ==>
      r.value == UpdateLocation(Location(current.value.id, form.name, form.coordinates,
                                          form.notes, form.status, current.value.createdAt))
    ensures r.Some? && (current.None? || current.value.id == "") ==>
      r.value == AddLocation(Draft(form.name, form.coordinates, form.notes, form.status))
  {
    if IsBlank(form.name) then None
    else match current
      case Some(target) =>
        if target.id == "" then Some(AddLocation(DraftOf(form)))
        else Some(UpdateLocation(Overlay(target, form)))
      case None => Some(AddLocation(DraftOf(form)))
  }

  /** The correction changes nothing for an edit target with a real id, nor without a target. */
  lemma IntendedAgreesAwayFromPlaceholder(form: Form, current: Option<Location>)
    requires current.None? || current.value.id != ""
    ensures HandleSubmitIntended(form, current) == HandleSubmit(form, current)
  {
  }

  /** The blank form opened for a new location cannot be submitted as it is. */
  lemma BlankFormDispatchesNothing()
    ensures HandleSubmit(InitialForm(None), None) == None
  {
    assert !(BlankForm.name != []);
  }

  /**
   * Submitting an edit form without changing it dispatches an update whose
   * payload is the edit target itself, as long as its name is not blank.
   */
  lemma UnchangedEditRoundTrip(target: Location)
    requires !IsBlank(target.name)
    ensures HandleSubmit(InitialForm(Some(target)), Some(target)) == Some(UpdateLocation(target))
  {
  }

  /**
   * Editing an entry of a list with unique ids through the form rewrites
   * that one entry with the form's fields and keeps its id and creation
   * time; every other entry, and every id, stays; the modal closes.
   */
  lemma EditUpdatesOneEntry(s: State, k: nat, es: seq<Edit>)
    requires UniqueIds(s.locations) && k < |s.locations|
    requires s.currentLocation == Some(s.locations[k])
    requires !IsBlank(ApplyEdits(InitialForm(s.currentLocation), es).name)
    ensures var f := ApplyEdits(InitialForm(s.currentLocation), es);
            var act := HandleSubmit(f, s.currentLocation);
            var r := Reduce(s, act.value, "", 0);
      && act.Some?
      && |r.locations| == |s.locations|
      && r.locations[k].id == s.locations[k].id
      && r.locations[k].createdAt == s.locations[k].createdAt
      && r.locations[k].name == f.name && r.locations[k].notes == f.notes
      && r.locations[k].status == f.status
      && r.locations[k].coordinates == s.locations[k].coordinates
      && (forall j :: 0 <= j < |s.locations| && j != k ==> r.locations[j] == s.locations[j])
      && !r.isModalOpen && r.currentLocation == None
  {
    var f := ApplyEdits(InitialForm(s.currentLocation), es);
    var act := HandleSubmit(f, s.currentLocation);
    UpdateReplacesOne(s, act.value.location, k);
  }
}
