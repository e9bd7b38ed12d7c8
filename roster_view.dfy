/**
 * The state and handlers of the roster table (components/users-table.tsx). Each field is one
 * piece of React state. React re-runs the search effect after any render in which `allUsers`
 * or `searchTerm` changed; here every handler that changes one of them ends by running it
 * (Recompute), so the state between handlers is the state after the effect.
 */
module RosterView {
  import opened Wrappers
  import opened Api
  import opened Roster
  import opened Pagination

  /** The inputs of the inline-edit row that write one key of the buffer. */
  datatype EditableField = FirstName | Surname | Phone | ParentsNumber | SchoolStatus | ServingUnit

  /** `setEditForm({ ...editForm, [field]: value })`. */
  function SetField(f: Draft, field: EditableField, value: string): Draft
  {
    match field
    case FirstName => f.(firstName := Some(value))
    case Surname => f.(surname := Some(value))
    case Phone => f.(phone := Some(value))
    case ParentsNumber => f.(parentsNumber := Some(value))
    case SchoolStatus => f.(schoolStatus := Some(value))
    case ServingUnit => f.(servingUnit := Some(value))
  }

  /** The rows a settled list request leaves: the unwrapped body, or none when the call threw. */
  function LoadedRows(response: Response<Body>): seq<User>
  {
    match response
    case Failed => []
    case Received(body) => if Unwrap(body).Some? then Unwrap(body).value else []
  }

  /**
   * The cases of `data.users || data || []` and of the catch path: a wrapped body gives its
   * `users` (an empty array is truthy, so it is taken as it is), a bare array gives itself, and
   * a falsy body, a null body (reading `.users` throws) and a failed call give no rows.
   */
  lemma LoadedRowsSpec(response: Response<Body>)
    ensures response.Received? && response.body.WrappedBody? ==> LoadedRows(response) == response.body.users
    ensures response.Received? && response.body.ListBody? ==> LoadedRows(response) == response.body.rows
    ensures response.Failed? || response.body.FalsyBody? || response.body.NullBody? ==> LoadedRows(response) == []
    ensures LoadedRows(response) == [] <==>
      || response.Failed? || response.body.FalsyBody? || response.body.NullBody?
      || response.body == WrappedBody([]) || response.body == ListBody([])
  {
  }

  /** The request the load handler issues for a unit filter: by unit when one is chosen. */
  function ListRequest(selectedUnit: string): (r: Request)
    ensures r == GetUsers <==> selectedUnit == ""
    ensures r != GetUsers ==> r == GetUsersByUnit(selectedUnit)
  {
    if selectedUnit != "" then GetUsersByUnit(selectedUnit) else GetUsers
  }

  class UsersTable {
    var allUsers: seq<User>
    var filteredUsers: seq<User>
    var currentPage: int
    var isLoading: bool
    var selectedUnit: string
    var searchTerm: string
    var editingUser: Option<string>
    var editForm: Draft

    /**
     * Between handlers: the derived list is the filter of the full list, the current page is
     * one of the table's pages (page 1 when there are none), and the edit buffer belongs to the
     * row under edit (and is `{}` when there is none).
     */
    ghost predicate Valid()
      reads this
    {
      && filteredUsers == FilterUsers(allUsers, searchTerm)
      && 1 <= currentPage <= Max(1, TotalPages(|filteredUsers|))
      && (editingUser.Some? ==> editForm.id == editingUser)
      && (editingUser.None? ==> editForm == EmptyDraft)
    }

    function PageCount(): nat
      reads this
    {
      TotalPages(|filteredUsers|)
    }

    /** The rows on screen. */
    function PaginatedUsers(): (r: seq<User>)
      reads this
      requires Valid()
      ensures |r| <= PageSize
      ensures filteredUsers != [] ==> r != []
    {
      PageSlice(filteredUsers, currentPage)
    }

    /** The "Active Members" figure: the active rows of the derived list. */
    function ActiveMembers(): (r: nat)
      reads this
      ensures r <= |filteredUsers|
      ensures r == |filteredUsers| <==> forall i :: 0 <= i < |filteredUsers| ==> filteredUsers[i].membershipStatus
    {
      ActiveCountSpec(filteredUsers, []);
      ActiveCount(filteredUsers)
    }

    /** The pagination bar is rendered: the table is not loading and has more than one page. */
    predicate PaginationShown()
      reads this
    {
      !isLoading && PageCount() > 1
    }

    /** The state on mount, after the first run of the search effect (over no rows). */
    constructor ()
      ensures Valid()
      ensures allUsers == [] && filteredUsers == [] && currentPage == 1 && isLoading
      ensures selectedUnit == "" && searchTerm == "" && editingUser == None && editForm == EmptyDraft
    {
      allUsers, filteredUsers := [], [];
      currentPage := 1;
      isLoading := true;
      selectedUnit, searchTerm := "", "";
      editingUser, editForm := None, EmptyDraft;
    }

    /** The search effect: recompute the derived list and go back to page 1. */
    method Recompute()
      modifies this`filteredUsers, this`currentPage
      ensures filteredUsers == FilterUsers(allUsers, searchTerm)
      ensures currentPage == 1
    {
      filteredUsers := FilterUsers(allUsers, searchTerm);
      currentPage := 1;
    }

    /**
     * `loadUsers`, with the awaited response as a parameter: the request depends on the unit
     * filter; the full list becomes the unwrapped body, or empty when the call (or the unwrap)
     * threw; the search effect then runs; loading is off whatever happened.
     */
    method Load(response: Response<Body>) returns (request: Request)
      requires Valid()
      modifies this
      ensures Valid()
      ensures request == ListRequest(selectedUnit)
      ensures allUsers == LoadedRows(response)
      ensures filteredUsers == FilterUsers(allUsers, searchTerm) && currentPage == 1
      ensures !isLoading
      ensures selectedUnit == old(selectedUnit) && searchTerm == old(searchTerm)
      ensures editingUser == old(editingUser) && editForm == old(editForm)
    {
      isLoading := true;
      request := if selectedUnit != "" then GetUsersByUnit(selectedUnit) else GetUsers;
      match response {
        case Received(body) =>
          match Unwrap(body) {
            case Some(users) =>
              allUsers := users;
              filteredUsers := users;
            case None =>
              allUsers := [];
              filteredUsers := [];
          }
        case Failed =>
          allUsers := [];
          filteredUsers := [];
      }
      isLoading := false;
      Recompute();
    }

    /**
     * The unit drop-down. Choosing a different unit re-runs the load effect (which settles with
     * `response`); choosing the same one changes nothing and issues no request.
     */
    method SelectUnit(unit: string, response: Response<Body>) returns (request: Option<Request>)
      requires Valid()
      modifies this
      ensures Valid()
      ensures unit == old(selectedUnit) ==> request == None && unchanged(this)
      ensures unit != old(selectedUnit) ==>
        && selectedUnit == unit
        && request == Some(ListRequest(unit))
        && allUsers == LoadedRows(response)
        && currentPage == 1 && !isLoading
        && searchTerm == old(searchTerm) && editingUser == old(editingUser) && editForm == old(editForm)
    {
      if unit == selectedUnit {
        request := None;
      } else {
        selectedUnit := unit;
        var r := Load(response);
        request := Some(r);
      }
    }

    /**
     * The search box. A new term re-runs the search effect, which goes back to page 1; the
     * same term is no state change, so the effect does not run.
     */
    method SetSearchTerm(term: string)
      requires Valid()
      modifies this
      ensures Valid()
      ensures searchTerm == term && allUsers == old(allUsers)
      ensures filteredUsers == FilterUsers(allUsers, term)
      ensures currentPage == if term == old(searchTerm) then old(currentPage) else 1
      ensures isLoading == old(isLoading) && selectedUnit == old(selectedUnit)
      ensures editingUser == old(editingUser) && editForm == old(editForm)
    {
      if term != searchTerm {
        searchTerm := term;
        Recompute();
      }
    }

    /**
     * `handleToggleMembership(userId, currentStatus)`: asks the server to set the negated
     * status; once it confirms, every row with that id carries the new status and the search
     * effect runs; when the call fails nothing changes.
     */
    method ToggleMembership(userId: string, currentStatus: bool, response: Response<()>)
      returns (request: Request)
      requires Valid()
      modifies this
      ensures Valid()
      ensures request == UpdateMembership(userId, !currentStatus)
      ensures response.Failed? ==> unchanged(this)
      ensures response.Received? ==>
        && allUsers == SetMembership(old(allUsers), userId, !currentStatus)
        && filteredUsers == SetMembership(old(filteredUsers), userId, !currentStatus)
        && currentPage == 1
        && isLoading == old(isLoading) && selectedUnit == old(selectedUnit) && searchTerm == old(searchTerm)
        && editingUser == old(editingUser) && editForm == old(editForm)
    {
      request := UpdateMembership(userId, !currentStatus);
      if response.Received? {
        allUsers := SetMembership(allUsers, userId, !currentStatus);
        Recompute();
        SetMembershipCommutesWithFilter(old(allUsers), userId, !currentStatus, searchTerm);
      }
    }

    /** The Edit button of a row: that row is under edit, with a snapshot of it as the buffer. */
    method StartEdit(row: User)
      requires Valid()
      modifies this`editingUser, this`editForm
      ensures Valid()
      ensures editingUser == Some(row.id) && editForm == Snapshot(row)
    {
      editingUser := Some(row.id);
      editForm := Snapshot(row);
    }

    /** Typing into one input of the row under edit; with no row under edit there is no input. */
    method EditField(field: EditableField, value: string)
      requires Valid()
      modifies this`editForm
      ensures Valid()
      ensures editForm == if editingUser.Some? then SetField(old(editForm), field, value) else old(editForm)
    {
      if editingUser.Some? {
        editForm := SetField(editForm, field, value);
      }
    }

    /** Cancel: no row under edit and an empty buffer; no row is touched. */
    method CancelEdit()
      requires Valid()
      modifies this`editingUser, this`editForm
      ensures Valid()
      ensures editingUser == None && editForm == EmptyDraft
    {
      editingUser := None;
      editForm := EmptyDraft;
    }

    /**
     * Save (local only, no request): the buffer is overlaid on the rows with the edited id, the
     * edit state is cleared and, `map` having built a new list, the search effect runs.
     */
    method SaveEdit()
      requires Valid()
      modifies this
      ensures Valid()
      ensures allUsers == ApplyEdit(old(allUsers), old(editingUser), old(editForm))
      ensures old(editingUser) == None ==> allUsers == old(allUsers)
      ensures editingUser == None && editForm == EmptyDraft
      ensures filteredUsers == FilterUsers(allUsers, searchTerm) && currentPage == 1
      ensures isLoading == old(isLoading) && selectedUnit == old(selectedUnit) && searchTerm == old(searchTerm)
    {
      ApplyEditEffect(allUsers, editingUser, editForm);
      allUsers := ApplyEdit(allUsers, editingUser, editForm);
      editingUser := None;
      editForm := EmptyDraft;
      Recompute();
    }

    /** Previous: enabled when the bar is shown and this is not page 1. */
    method PreviousPage()
      requires Valid()
      modifies this`currentPage
      ensures Valid()
      ensures currentPage == if PaginationShown() && old(currentPage) != 1 then Previous(old(currentPage)) else old(currentPage)
    {
      if PaginationShown() && currentPage != 1 {
        currentPage := Previous(currentPage);
      }
    }

    /** Next: enabled when the bar is shown and this is not the last page. */
    method NextPage()
      requires Valid()
      modifies this`currentPage
      ensures Valid()
      ensures currentPage == if PaginationShown() && old(currentPage) != PageCount() then Next(old(currentPage), PageCount()) else old(currentPage)
    {
      if PaginationShown() && currentPage != PageCount() {
        currentPage := Next(currentPage, PageCount());
      }
    }

    /** A numbered page button: only pages 1 .. min(5, totalPages) have one. */
    method GoToPage(page: int)
      requires Valid()
      modifies this`currentPage
      ensures Valid()
      ensures currentPage == if PaginationShown() && page in PageButtons(PageCount()) then page else old(currentPage)
    {
      if PaginationShown() && page in PageButtons(PageCount()) {
        currentPage := page;
      }
    }
  }

  /**
   * A table with no search term, filtered by "Choir", that receives `{ users: rows }`: it asks
   * for that unit and shows the same rows in the full and the derived list, from page 1.
   */
  method ChoirScenario(rows: seq<User>) returns (request: Option<Request>, all: seq<User>, shown: seq<User>, page: int)
    ensures request == Some(GetUsersByUnit("Choir"))
    ensures all == rows && shown == rows && page == 1
  {
    var table := new UsersTable();
    var _ := table.Load(Received(ListBody([])));  // the mount-time load, before any unit is chosen
    request := table.SelectUnit("Choir", Received(WrappedBody(rows)));
    all, shown, page := table.allUsers, table.filteredUsers, table.currentPage;
  }
}
