/**
 * What a click on the map sets in motion: the modal opens with a
 * placeholder location at the clicked point, the user fills in the form,
 * and submits it.
 */
module MapClick {
  import opened Types
  import opened LocationContext
  import opened LocationModal

  /** The placeholder a map click opens the modal with: empty id, name and notes. */
  function ClickTarget(c: Coordinates, clickTime: int): (r: Location)
    ensures r.id == "" && r.name == "" && r.notes == ""
    ensures r.status == Wishlist && r.coordinates == c && r.createdAt == clickTime
  {
    Location("", "", c, "", Wishlist, clickTime)
  }

  /** The form the user submits after a click: the reset form, then their edits. */
  function ClickForm(c: Coordinates, clickTime: int, es: seq<Edit>): Form
  {
    ApplyEdits(InitialForm(Some(ClickTarget(c, clickTime))), es)
  }

  /** The state after a click, `es`, and a submit through `handleSubmit` as written. */
  function ClickEditSubmit(s: State, c: Coordinates, clickTime: int, es: seq<Edit>, freshId: string, now: int): State
  {
    var s1 := Reduce(s, ToggleModal(Some(ClickTarget(c, clickTime))), "", 0);
    match HandleSubmit(ClickForm(c, clickTime, es), s1.currentLocation)
    case None => s1
    case Some(a) => Reduce(s1, a, freshId, now)
  }

  /** The same flow through the corrected submit. */
  function ClickEditSubmitIntended(s: State, c: Coordinates, clickTime: int, es: seq<Edit>, freshId: string, now: int): State
  {
    var s1 := Reduce(s, ToggleModal(Some(ClickTarget(c, clickTime))), "", 0);
    match HandleSubmitIntended(ClickForm(c, clickTime, es), s1.currentLocation)
    case None => s1
    case Some(a) => Reduce(s1, a, freshId, now)
  }

  /**
   * As written, a location picked on the map is never added: the placeholder
   * is an edit target, so a valid submit dispatches UPDATE_LOCATION for id
   * "", which matches no entry of a list without that id. The modal still
   * closes as if the location had been saved.
   */
  lemma ClickSubmitAddsNothing(s: State, c: Coordinates, clickTime: int, es: seq<Edit>, freshId: string, now: int)
    requires !s.isModalOpen
    requires !HasId(s.locations, "")
    requires !IsBlank(ClickForm(c, clickTime, es).name)
    ensures var r := ClickEditSubmit(s, c, clickTime, es, freshId, now);
      && r.locations == s.locations
      && !r.isModalOpen && r.currentLocation == None
      && r.filterStatus == s.filterStatus
  {
    var target := ClickTarget(c, clickTime);
    var s1 := Reduce(s, ToggleModal(Some(target)), "", 0);
    assert s1 == s.(isModalOpen := true, currentLocation := Some(target));
    var f := ClickForm(c, clickTime, es);
    var p := Overlay(target, f);
    assert HandleSubmit(f, s1.currentLocation) == Some(UpdateLocation(p));
    assert p.id == "";
    UpdateUnknownId(s1, p);
  }

  /** A concrete case: on an empty list, clicking and naming the place "Paris" leaves the list empty. */
  lemma ClickSubmitExample()
    ensures ClickEditSubmit(InitialState, Coordinates(48.85, 2.35), 0, [EditName("Paris")], "k3x9q2a", 1).locations == []
  {
    var c := Coordinates(48.85, 2.35);
    var f := ClickForm(c, 0, [EditName("Paris")]);
    assert f.name == "Paris";
    assert !IsWhitespace(f.name[0]);
    ClickSubmitAddsNothing(InitialState, c, 0, [EditName("Paris")], "k3x9q2a", 1);
  }

  /**
   * With the corrected submit, the same flow puts one new entry in front
   * of the list, at the clicked point, with the form's name, notes and
   * status and the fresh id and time; the modal closes.
   */
  lemma ClickSubmitAddsEntryIntended(s: State, c: Coordinates, clickTime: int, es: seq<Edit>, freshId: string, now: int)
    requires !IsBlank(ClickForm(c, clickTime, es).name)
    ensures var f := ClickForm(c, clickTime, es);
            var r := ClickEditSubmitIntended(s, c, clickTime, es, freshId, now);
      && r.locations == [Location(freshId, f.name, c, f.notes, f.status, now)] + s.locations
      && !r.isModalOpen && r.currentLocation == None
      && r.filterStatus == s.filterStatus
  {
    var target := ClickTarget(c, clickTime);
    var s1 := Reduce(s, ToggleModal(Some(target)), "", 0);
    assert s1 == s.(isModalOpen := !s.isModalOpen, currentLocation := Some(target));
    var f := ClickForm(c, clickTime, es);
    assert f.coordinates == c;
    assert HandleSubmitIntended(f, s1.currentLocation) == Some(AddLocation(DraftOf(f)));
    AddPrepends(s1, DraftOf(f), freshId, now);
  }
}
