/**
 * The store behind the whole application: a reducer that maps the current
 * state and one action to the next state, the filtered view the sidebar
 * reads, and the guard that loads the stored list at start-up.
 */
module LocationContext {
  import opened Types
  import opened Sequences

  /** The payload of ADD_LOCATION: a location without `id` and `createdAt`. */
  datatype Draft = Draft(name: string, coordinates: Coordinates, notes: string, status: Status)

  /** The list, the active filter, the modal flag and the edit target. */
  datatype State = State(
    locations: seq<Location>,
    filterStatus: FilterStatus,
    isModalOpen: bool,
    currentLocation: Option<Location>)

  /**
   * The seven actions. TOGGLE_MODAL's optional payload is `None` when the
   * caller passes nothing or `null` (`action.payload || null`).
   */
  datatype Action =
    | AddLocation(draft: Draft)
    | UpdateLocation(location: Location)
    | DeleteLocation(id: string)
    | SetFilter(filter: FilterStatus)
    | ToggleModal(target: Option<Location>)
    | ToggleStatus(id: string)
    | LoadLocations(stored: seq<Location>)

  /** Empty list, filter `all`, modal closed, nothing being edited. */
  const InitialState: State := State([], All, false, None)

  /** The entry ADD_LOCATION builds: the draft's fields plus an id and a creation time. */
  function Stamp(d: Draft, id: string, createdAt: int): Location
  {
    Location(id, d.name, d.coordinates, d.notes, d.status, createdAt)
  }

  /** UPDATE_LOCATION's per-entry step: the payload replaces an entry with its id. */
  function Replace(payload: Location, l: Location): Location
  {
    if l.id == payload.id then payload else l
  }

  /** TOGGLE_STATUS's per-entry step: flip the status of an entry with the id. */
  function FlipIfId(id: string, l: Location): Location
  {
    if l.id == id then l.(status := Flip(l.status)) else l
  }

  /**
   * `locationReducer`. `freshId` and `now` stand for `generateId()` and
   * `Date.now()`, which only ADD_LOCATION reads.
   */
  function Reduce(s: State, a: Action, freshId: string, now: int): (r: State)
    ensures r.filterStatus == (if a.SetFilter? then a.filter else s.filterStatus)
    ensures !(a.AddLocation? || a.UpdateLocation? || a.ToggleModal?) ==>
      r.isModalOpen == s.isModalOpen && r.currentLocation == s.currentLocation
    ensures a.AddLocation? || a.UpdateLocation? ==> !r.isModalOpen && r.currentLocation == None
    ensures a.SetFilter? || a.ToggleModal? ==> r.locations == s.locations
    ensures a.UpdateLocation? || a.ToggleStatus? ==> |r.locations| == |s.locations|
  {
    match a
    case AddLocation(d) =>
      s.(locations := [Stamp(d, freshId, now)] + s.locations, isModalOpen := false, currentLocation := None)
    case UpdateLocation(p) =>
      s.(locations := Map((l: Location) => Replace(p, l), s.locations), isModalOpen := false, currentLocation := None)
    case DeleteLocation(id) =>
      s.(locations := Filter((l: Location) => l.id != id, s.locations))
    case SetFilter(f) =>
      s.(filterStatus := f)
    case ToggleModal(t) =>
      s.(isModalOpen := !s.isModalOpen, currentLocation := t)
    case ToggleStatus(id) =>
      s.(locations := Map((l: Location) => FlipIfId(id, l), s.locations))
    case LoadLocations(xs) =>
      s.(locations := xs)
  }

  /**
   * Only ADD_LOCATION reads the fresh id and time: for every other action
   * the lemmas below, stated with `""` and `0`, hold for any values.
   */
  lemma ReduceIgnoresFreshOffAdd(s: State, a: Action, id1: string, n1: int, id2: string, n2: int)
    requires !a.AddLocation?
    ensures Reduce(s, a, id1, n1) == Reduce(s, a, id2, n2)
  {
  }

  /** Some entry of `xs` has id `id`. */
  predicate HasId(xs: seq<Location>, id: string)
  {
    exists i :: 0 <= i < |xs| && xs[i].id == id
  }

  /** No two entries of `xs` share an id. */
  predicate UniqueIds(xs: seq<Location>)
  {
    forall i, j :: 0 <= i < j < |xs| ==> xs[i].id != xs[j].id
  }

  // ---------------------------------------------------------------- ADD

  /**
   * ADD_LOCATION puts one new entry in front of the old list; the entry
   * carries the draft's fields and the supplied id and time. The modal
   * closes, the edit target is cleared and the filter is kept.
   */
  lemma AddPrepends(s: State, d: Draft, freshId: string, now: int)
    ensures var r := Reduce(s, AddLocation(d), freshId, now);
      && |r.locations| == |s.locations| + 1
      && r.locations[1..] == s.locations
      && r.locations[0].id == freshId && r.locations[0].createdAt == now
      && r.locations[0].name == d.name && r.locations[0].notes == d.notes
      && r.locations[0].status == d.status && r.locations[0].coordinates == d.coordinates
      && !r.isModalOpen && r.currentLocation == None
      && r.filterStatus == s.filterStatus
  {
    var r := Reduce(s, AddLocation(d), freshId, now);
    assert r.locations == [Stamp(d, freshId, now)] + s.locations;
  }

  /**
   * ADD_LOCATION keeps ids unique exactly when the supplied id is new:
   * the reducer itself does not check.
   */
  lemma AddUniqueIds(s: State, d: Draft, freshId: string, now: int)
    requires UniqueIds(s.locations)
    ensures UniqueIds(Reduce(s, AddLocation(d), freshId, now).locations) <==> !HasId(s.locations, freshId)
  {
    var r := Reduce(s, AddLocation(d), freshId, now).locations;
    if HasId(s.locations, freshId) {
      var i :| 0 <= i < |s.locations| && s.locations[i].id == freshId;
      assert r[0].id == r[i + 1].id;
    }
  }

  // ---------------------------------------------------------------- UPDATE

  /**
   * UPDATE_LOCATION keeps the length, the order and every id; each entry
   * whose id is the payload's becomes the payload, every other entry is
   * untouched. The modal closes and the edit target is cleared.
   */
  lemma UpdateReplacesMatching(s: State, p: Location)
    ensures var r := Reduce(s, UpdateLocation(p), "", 0);
      && |r.locations| == |s.locations|
      && (forall i :: 0 <= i < |s.locations| && s.locations[i].id == p.id ==> r.locations[i] == p)
      && (forall i :: 0 <= i < |s.locations| && s.locations[i].id != p.id ==> r.locations[i] == s.locations[i])
      && (forall i :: 0 <= i < |s.locations| ==> r.locations[i].id == s.locations[i].id)
      && !r.isModalOpen && r.currentLocation == None
      && r.filterStatus == s.filterStatus
  {
  }

  /** UPDATE_LOCATION for an id that is not in the list leaves the list alone, yet still closes the modal. */
  lemma UpdateUnknownId(s: State, p: Location)
    requires !HasId(s.locations, p.id)
    ensures var r := Reduce(s, UpdateLocation(p), "", 0);
      r == s.(isModalOpen := false, currentLocation := None)
  {
    var r := Reduce(s, UpdateLocation(p), "", 0);
    assert r.locations == s.locations;
  }

  /** With unique ids, UPDATE_LOCATION replaces exactly the one entry that has the payload's id. */
  lemma UpdateReplacesOne(s: State, p: Location, k: nat)
    requires UniqueIds(s.locations)
    requires k < |s.locations| && s.locations[k].id == p.id
    ensures Reduce(s, UpdateLocation(p), "", 0).locations == s.locations[k := p]
  {
  }

  // ---------------------------------------------------------------- DELETE

  /**
   * DELETE_LOCATION leaves the old list minus the entries with the id: the
   * result is a subsequence of the old list, none of its entries has the
   * id, and every entry with another id is kept as often as it was. The
   * filter, the modal flag and the edit target are untouched.
   */
  lemma DeleteRemovesId(s: State, id: string)
    ensures var r := Reduce(s, DeleteLocation(id), "", 0);
      && IsSubsequence(r.locations, s.locations)
      && !HasId(r.locations, id)
      && (forall l: Location :: l.id != id ==> multiset(r.locations)[l] == multiset(s.locations)[l])
      && r.filterStatus == s.filterStatus
      && r.isModalOpen == s.isModalOpen
      && r.currentLocation == s.currentLocation
  {
    FilterCounts((l: Location) => l.id != id, s.locations);
  }

  /** DELETE_LOCATION of an id that is not in the list changes nothing. */
  lemma DeleteUnknownId(s: State, id: string)
    requires !HasId(s.locations, id)
    ensures Reduce(s, DeleteLocation(id), "", 0) == s
  {
    FilterKeepsAll((l: Location) => l.id != id, s.locations);
  }

  /** With unique ids, DELETE_LOCATION removes exactly the one entry with the id. */
  lemma DeleteRemovesOne(s: State, k: nat)
    requires UniqueIds(s.locations)
    requires k < |s.locations|
    ensures Reduce(s, DeleteLocation(s.locations[k].id), "", 0).locations
         == s.locations[..k] + s.locations[k + 1..]
  {
    var xs, id := s.locations, s.locations[k].id;
    var before, after := xs[..k], xs[k + 1..];
    var p := (l: Location) => l.id != id;
    assert xs == before + [xs[k]] + after;
    forall i | 0 <= i < |before| ensures p(before[i]) {
      assert before[i] == xs[i] && xs[i].id != xs[k].id;
    }
    forall i | 0 <= i < |after| ensures p(after[i]) {
      assert after[i] == xs[k + 1 + i] && xs[k].id != xs[k + 1 + i].id;
    }
    FilterDropsOne(p, before, xs[k], after);
  }

  /** Every entry of a subsequence is an entry of the original. */
  lemma SubsequenceMember(a: seq<Location>, b: seq<Location>, i: nat)
    requires IsSubsequence(a, b) && i < |a|
    ensures a[i] in b
  {
    SubsequenceMultiset(a, b);
    assert a[i] in multiset(a);
  }

  /** A subsequence of a list with unique ids has unique ids. */
  lemma {:induction false} SubsequenceUniqueIds(a: seq<Location>, b: seq<Location>)
    requires IsSubsequence(a, b) && UniqueIds(b)
    ensures UniqueIds(a)
    decreases |b|
  {
    if b != [] {
      if a != [] && a[0] == b[0] {
        SubsequenceUniqueIds(a[1..], b[1..]);
        forall j | 0 < j < |a| ensures a[0].id != a[j].id {
          SubsequenceMember(a[1..], b[1..], j - 1);
          var m :| 0 <= m < |b[1..]| && b[1..][m] == a[j];
          assert b[m + 1] == a[j];
        }
      } else {
        SubsequenceUniqueIds(a, b[1..]);
      }
    }
  }

  // ---------------------------------------------------------------- SET_FILTER, TOGGLE_MODAL, LOAD

  /** SET_FILTER replaces the filter and nothing else. */
  lemma SetFilterOnlyFilter(s: State, f: FilterStatus)
    ensures var r := Reduce(s, SetFilter(f), "", 0);
      && r.filterStatus == f
      && r.locations == s.locations && r.isModalOpen == s.isModalOpen && r.currentLocation == s.currentLocation
  {
  }

  /**
   * TOGGLE_MODAL inverts the modal flag whatever its argument, makes the
   * argument (or nothing) the edit target, and never touches the list or
   * the filter.
   */
  lemma ToggleModalInverts(s: State, t: Option<Location>)
    ensures var r := Reduce(s, ToggleModal(t), "", 0);
      && r.isModalOpen != s.isModalOpen
      && r.currentLocation == t
      && r.locations == s.locations && r.filterStatus == s.filterStatus
  {
  }

  /**
   * Opening the modal for one location and then asking to open it for
   * another closes it: TOGGLE_MODAL toggles, it does not open.
   */
  lemma ToggleModalTwiceCloses(s: State, a: Location, b: Location)
    requires !s.isModalOpen
    ensures var open := Reduce(s, ToggleModal(Some(a)), "", 0);
      && open.isModalOpen && open.currentLocation == Some(a)
      && !Reduce(open, ToggleModal(Some(b)), "", 0).isModalOpen
  {
  }

  /** LOAD_LOCATIONS replaces the list wholesale and nothing else. */
  lemma LoadReplacesList(s: State, xs: seq<Location>)
    ensures Reduce(s, LoadLocations(xs), "", 0) == s.(locations := xs)
  {
  }

  // ---------------------------------------------------------------- TOGGLE_STATUS

  /**
   * TOGGLE_STATUS flips the status of the entries with the id and changes
   * no other field of any entry; the length, the order, the filter, the
   * modal flag and the edit target stay as they were.
   */
  lemma ToggleStatusFlips(s: State, id: string)
    ensures var r := Reduce(s, ToggleStatus(id), "", 0);
      && |r.locations| == |s.locations|
      && (forall i :: 0 <= i < |s.locations| ==>
            r.locations[i].status == (if s.locations[i].id == id then Flip(s.locations[i].status) else s.locations[i].status))
      && (forall i :: 0 <= i < |s.locations| ==>
            r.locations[i].(status := s.locations[i].status) == s.locations[i])
      && r.filterStatus == s.filterStatus && r.isModalOpen == s.isModalOpen && r.currentLocation == s.currentLocation
  {
  }

  /** TOGGLE_STATUS for an id that is not in the list changes nothing. */
  lemma ToggleStatusUnknownId(s: State, id: string)
    requires !HasId(s.locations, id)
    ensures Reduce(s, ToggleStatus(id), "", 0) == s
  {
    assert Reduce(s, ToggleStatus(id), "", 0).locations == s.locations;
  }

  /** TOGGLE_STATUS twice with the same id gives back the state one started from. */
  lemma ToggleStatusInvolution(s: State, id: string)
    ensures Reduce(Reduce(s, ToggleStatus(id), "", 0), ToggleStatus(id), "", 0) == s
  {
    var r := Reduce(Reduce(s, ToggleStatus(id), "", 0), ToggleStatus(id), "", 0);
    forall i | 0 <= i < |s.locations| ensures r.locations[i] == s.locations[i] {
      FlipInvolution(s.locations[i].status);
    }
  }

  // ---------------------------------------------------------------- uniqueness of ids

  /**
   * Every action keeps ids unique, given that ADD_LOCATION's id is new and
   * LOAD_LOCATIONS' list has unique ids.
   */
  lemma ReducePreservesUniqueIds(s: State, a: Action, freshId: string, now: int)
    requires UniqueIds(s.locations)
    requires a.AddLocation? ==> !HasId(s.locations, freshId)
    requires a.LoadLocations? ==> UniqueIds(a.stored)
    ensures UniqueIds(Reduce(s, a, freshId, now).locations)
  {
    match a
    case AddLocation(d) => AddUniqueIds(s, d, freshId, now);
    case UpdateLocation(p) => UpdateReplacesMatching(s, p);
    case DeleteLocation(id) =>
      SubsequenceUniqueIds(Reduce(s, a, freshId, now).locations, s.locations);
    case ToggleStatus(id) => ToggleStatusFlips(s, id);
    case _ =>
  }

  // ---------------------------------------------------------------- the filtered view

  /** The filter passes an entry: always under `all`, otherwise when the statuses agree. */
  predicate Shows(f: FilterStatus, l: Location)
    ensures f == All ==> Shows(f, l)
    ensures f == Only(Wishlist) ==> (Shows(f, l) <==> l.status == Wishlist)
    ensures f == Only(Visited) ==> (Shows(f, l) <==> l.status == Visited)
  {
    f.All? || l.status == f.status
  }

  /**
   * `filteredLocations`: in the original order, the entries the active
   * filter passes, each kept as often as it occurs.
   */
  function FilteredLocations(s: State): (r: seq<Location>)
    ensures IsSubsequence(r, s.locations)
    ensures forall i :: 0 <= i < |r| ==> Shows(s.filterStatus, r[i])
    ensures forall l: Location :: Shows(s.filterStatus, l) ==> multiset(r)[l] == multiset(s.locations)[l]
  {
    FilterCounts((l: Location) => Shows(s.filterStatus, l), s.locations);
    Filter((l: Location) => Shows(s.filterStatus, l), s.locations)
  }

  /** Under `all` the view is the whole list. */
  lemma FilterAllShowsEverything(s: State)
    requires s.filterStatus == All
    ensures FilteredLocations(s) == s.locations
  {
    FilterKeepsAll((l: Location) => Shows(s.filterStatus, l), s.locations);
  }

  /**
   * Under a status filter the view is exactly the entries of that status,
   * in order: any subsequence that holds all of them and nothing else is
   * the view.
   */
  lemma FilterStatusIsExact(s: State, st: Status, r: seq<Location>)
    requires s.filterStatus == Only(st)
    requires IsSubsequence(r, s.locations)
    requires forall i :: 0 <= i < |r| ==> r[i].status == st
    requires forall l: Location :: l.status == st ==> multiset(r)[l] == multiset(s.locations)[l]
    ensures FilteredLocations(s) == r
  {
    FilterUnique((l: Location) => Shows(s.filterStatus, l), s.locations, r);
  }

  /** The wishlist view and the visited view split the list between them. */
  lemma FilterViewsPartition(s: State)
    ensures var w := FilteredLocations(s.(filterStatus := Only(Wishlist)));
            var v := FilteredLocations(s.(filterStatus := Only(Visited)));
      && multiset(w) + multiset(v) == multiset(s.locations)
      && |w| + |v| == |s.locations|
  {
    var w := FilteredLocations(s.(filterStatus := Only(Wishlist)));
    var v := FilteredLocations(s.(filterStatus := Only(Visited)));
    forall l: Location ensures (multiset(w) + multiset(v))[l] == multiset(s.locations)[l] {
      if l.status == Wishlist {
        assert l !in multiset(v);
      } else {
        assert l !in multiset(w);
      }
    }
    assert multiset(w) + multiset(v) == multiset(s.locations);
    assert |multiset(w) + multiset(v)| == |multiset(s.locations)|;
  }

  /** Two entries, one of each status: the `visited` filter shows exactly the visited one. */
  lemma VisitedFilterScenario(a: Location, b: Location)
    requires a.status == Wishlist && b.status == Visited
    ensures FilteredLocations(Reduce(State([a, b], All, false, None), SetFilter(Only(Visited)), "", 0)) == [b]
  {
    var s := Reduce(State([a, b], All, false, None), SetFilter(Only(Visited)), "", 0);
    var p := (l: Location) => Shows(s.filterStatus, l);
    FilterCons(p, a, [b]);
    FilterCons(p, b, []);
  }

  // ---------------------------------------------------------------- start-up

  /**
   * The start-up effect: LOAD_LOCATIONS is dispatched only when the stored
   * list is non-empty. Because the initial list is empty, the guard cannot
   * be observed: either way the list is the stored one and the rest is the
   * initial state. (LOAD_LOCATIONS reads no fresh id or time.)
   */
  function Startup(stored: seq<Location>): (r: State)
    ensures r == InitialState.(locations := stored)
    ensures stored == [] ==> r == InitialState
  {
    if |stored| > 0 then Reduce(InitialState, LoadLocations(stored), "", 0) else InitialState
  }

  /**
   * The initial state: nothing stored, nothing shown, the `all` filter, the
   * modal closed and no edit target; it is what start-up gives for empty
   * storage.
   */
  lemma InitialStateEmptyAndClosed()
    ensures InitialState.locations == [] && FilteredLocations(InitialState) == []
    ensures InitialState.filterStatus == All
    ensures !InitialState.isModalOpen && InitialState.currentLocation == None
    ensures Startup([]) == InitialState
  {
  }

  // ---------------------------------------------------------------- runs of actions

  /** One dispatch, with the id and time the reducer would draw for it. */
  datatype Step = Step(action: Action, freshId: string, now: int)

  /** The state after dispatching the steps in order. */
  function Run(s: State, steps: seq<Step>): State
    decreases |steps|
  {
    if steps == [] then s
    else Run(Reduce(s, steps[0].action, steps[0].freshId, steps[0].now), steps[1..])
  }

  /**
   * After n additions the list has grown by n, the old list follows
   * unchanged, and the most recent addition comes first.
   */
  lemma {:induction false} AddsPrependNewestFirst(s: State, steps: seq<Step>)
    requires forall i :: 0 <= i < |steps| ==> steps[i].action.AddLocation?
    ensures var r := Run(s, steps);
      && |r.locations| == |s.locations| + |steps|
      && r.locations[|steps|..] == s.locations
      && forall k :: 0 <= k < |steps| ==>
           var st := steps[|steps| - 1 - k];
           r.locations[k] == Stamp(st.action.draft, st.freshId, st.now)
    decreases |steps|
  {
    if steps != [] {
      var n := |steps|;
      var s1 := Reduce(s, steps[0].action, steps[0].freshId, steps[0].now);
      AddsPrependNewestFirst(s1, steps[1..]);
      var r := Run(s, steps);
      assert r == Run(s1, steps[1..]);
      assert r.locations[n - 1..] == s1.locations;
      assert r.locations[n..] == r.locations[n - 1..][1..];
      forall k | 0 <= k < n
        ensures r.locations[k] == Stamp(steps[n - 1 - k].action.draft, steps[n - 1 - k].freshId, steps[n - 1 - k].now)
      {
        if k == n - 1 {
          assert r.locations[k] == r.locations[n - 1..][0];
        } else {
          assert steps[1..][n - 2 - k] == steps[n - 1 - k];
        }
      }
    }
  }
}
