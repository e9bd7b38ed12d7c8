/**
 * The records of the admin roster and the pure computations over them
 * (components/users-table.tsx): the search filter, the membership toggle and inline-edit
 * row updates, the response unwrap and the active-member count.
 */
module Roster {
  import opened Wrappers
  import Text
  import Seqs

  /** One registrant as the list endpoints return it. */
  datatype User = User(
    id: string,
    firstName: string,
    surname: string,
    phone: string,
    gender: string,
    parentsNumber: string,
    schoolStatus: string,
    servingUnit: string,
    membershipStatus: bool,
    submittedAt: Option<string>,
    createdAt: Option<string>)

  /**
   * `Partial<User>`, the inline-edit buffer: each field is either a key the object carries
   * (Some) or one it lacks (None).
   */
  datatype Draft = Draft(
    id: Option<string>,
    firstName: Option<string>,
    surname: Option<string>,
    phone: Option<string>,
    gender: Option<string>,
    parentsNumber: Option<string>,
    schoolStatus: Option<string>,
    servingUnit: Option<string>,
    membershipStatus: Option<bool>,
    submittedAt: Option<string>,
    createdAt: Option<string>)

  /** The empty object `{}`. */
  const EmptyDraft := Draft(None, None, None, None, None, None, None, None, None, None, None)

  /** `setEditForm(user)`: a copy of every key the row carries. */
  function Snapshot(u: User): Draft
  {
    Draft(Some(u.id), Some(u.firstName), Some(u.surname), Some(u.phone), Some(u.gender),
          Some(u.parentsNumber), Some(u.schoolStatus), Some(u.servingUnit),
          Some(u.membershipStatus), u.submittedAt, u.createdAt)
  }

  function Pick<T>(over: Option<T>, base: T): T { if over.Some? then over.value else base }
  function PickOpt<T>(over: Option<T>, base: Option<T>): Option<T> { if over.Some? then over else base }

  /** `{ ...user, ...editForm }`: every key the buffer carries replaces the row's. */
  function Overlay(u: User, f: Draft): User
  {
    User(Pick(f.id, u.id), Pick(f.firstName, u.firstName), Pick(f.surname, u.surname),
         Pick(f.phone, u.phone), Pick(f.gender, u.gender), Pick(f.parentsNumber, u.parentsNumber),
         Pick(f.schoolStatus, u.schoolStatus), Pick(f.servingUnit, u.servingUnit),
         Pick(f.membershipStatus, u.membershipStatus), PickOpt(f.submittedAt, u.submittedAt),
         PickOpt(f.createdAt, u.createdAt))
  }

  /** Overlaying the empty buffer changes nothing; overlaying a row's own snapshot changes nothing. */
  lemma OverlayNeutral(u: User)
    ensures Overlay(u, EmptyDraft) == u
    ensures Overlay(u, Snapshot(u)) == u
  {
  }

  /** Overlaying a snapshot of `v` yields `v`, except for timestamps `v` lacks, which `u` keeps. */
  lemma OverlaySnapshot(u: User, v: User)
    ensures Overlay(u, Snapshot(v)) == v.(submittedAt := PickOpt(v.submittedAt, u.submittedAt),
                                          createdAt := PickOpt(v.createdAt, u.createdAt))
  {
  }

  // ---------------------------------------------------------------------------------------
  // Search

  /**
   * The search test of one row: the lower-cased first name or surname contains the
   * lower-cased term, or the raw phone number contains the raw term.
   */
  predicate Matches(u: User, term: string)
  {
    || Text.Includes(Text.Lower(u.firstName), Text.Lower(term))
    || Text.Includes(Text.Lower(u.surname), Text.Lower(term))
    || Text.Includes(u.phone, term)
  }

  /**
   * Only the phone part of the search sees the case of the term: two terms with the same
   * lower-cased form match the same rows by name, so if they disagree on a row, they disagree
   * on its phone.
   */
  lemma NameSearchIgnoresCase(u: User, term: string, other: string)
    requires Text.Lower(term) == Text.Lower(other)
    requires Matches(u, term) != Matches(u, other)
    ensures Text.Includes(u.phone, term) != Text.Includes(u.phone, other)
  {
  }

  /** A first name or surname equal to the term up to case is found by the search. */
  lemma NameEqualUpToCaseMatches(u: User, term: string)
    requires Text.Lower(u.firstName) == Text.Lower(term) || Text.Lower(u.surname) == Text.Lower(term)
    ensures Matches(u, term)
  {
    var t := Text.Lower(term);
    assert t[0..|t|] == t;
    if Text.Lower(u.firstName) == t {
      assert Text.OccursAt(Text.Lower(u.firstName), t, 0);
    } else {
      assert Text.OccursAt(Text.Lower(u.surname), t, 0);
    }
  }

  /** The derived list: every row when the term is empty, otherwise the matching rows in order. */
  function FilterUsers(rows: seq<User>, term: string): seq<User>
  {
    if term == "" then rows else Seqs.Keep(rows, u => Matches(u, term))
  }

  /**
   * The filter's meaning: an empty term keeps the list as it is; any other term keeps exactly
   * the matching rows, in their original order (an embedding `idx` into `rows` that misses no
   * matching position).
   */
  lemma FilterSpec(rows: seq<User>, term: string) returns (idx: seq<int>)
    ensures term == "" ==> FilterUsers(rows, term) == rows
    ensures term != "" ==> Seqs.Embedding(FilterUsers(rows, term), rows, idx)
    ensures term != "" ==> forall i :: 0 <= i < |rows| && Matches(rows[i], term) ==> i in idx
    ensures term != "" ==> forall k :: 0 <= k < |FilterUsers(rows, term)| ==> Matches(FilterUsers(rows, term)[k], term)
  {
    idx := Seqs.KeepIsOrderedSublist(rows, u => Matches(u, term));
  }

  /** A term every row matches keeps the whole list; a term no row matches empties it. */
  lemma FilterExtremes(rows: seq<User>, term: string)
    ensures (forall i :: 0 <= i < |rows| ==> Matches(rows[i], term)) ==> FilterUsers(rows, term) == rows
    ensures term != "" ==> (FilterUsers(rows, term) == [] <==> forall i :: 0 <= i < |rows| ==> !Matches(rows[i], term))
  {
    Seqs.KeepAll(rows, u => Matches(u, term));
    Seqs.KeepNone(rows, u => Matches(u, term));
  }

  // ---------------------------------------------------------------------------------------
  // Membership toggle

  /** A row after a confirmed membership update for `id`. */
  function SetStatus(u: User, id: string, status: bool): User
  {
    if u.id == id then u.(membershipStatus := status) else u
  }

  /** `allUsers.map(...)` of the toggle handler: every row with `_id == id` gets `status`. */
  function SetMembership(rows: seq<User>, id: string, status: bool): seq<User>
  {
    Seqs.Map(rows, (u: User) => SetStatus(u, id, status))
  }

  /**
   * The toggle changes only the membership flag of the rows carrying `id`, to `status`; every
   * other row and every other field is kept, and so is the length.
   */
  lemma SetMembershipEffect(rows: seq<User>, id: string, status: bool)
    ensures |SetMembership(rows, id, status)| == |rows|
    ensures forall i :: 0 <= i < |rows| && rows[i].id == id ==>
      SetMembership(rows, id, status)[i] == rows[i].(membershipStatus := status)
    ensures forall i :: 0 <= i < |rows| && rows[i].id != id ==> SetMembership(rows, id, status)[i] == rows[i]
  {
  }

  /** Toggling back restores the list, when every row with `id` had the old status. */
  lemma SetMembershipUndo(rows: seq<User>, id: string, current: bool)
    requires forall i :: 0 <= i < |rows| && rows[i].id == id ==> rows[i].membershipStatus == current
    ensures SetMembership(SetMembership(rows, id, !current), id, current) == rows
  {
  }

  /** The toggle does not change which rows the search shows: it commutes with the filter. */
  lemma SetMembershipCommutesWithFilter(rows: seq<User>, id: string, status: bool, term: string)
    ensures FilterUsers(SetMembership(rows, id, status), term) == SetMembership(FilterUsers(rows, term), id, status)
  {
    if term != "" {
      var p := (u: User) => Matches(u, term);
      var f := (u: User) => SetStatus(u, id, status);
      Seqs.KeepMap(rows, f, p);
    }
  }

  // ---------------------------------------------------------------------------------------
  // Inline edit

  /**
   * `allUsers.map(...)` of the save handler: the rows whose `_id` equals the edited id get the
   * buffer overlaid; with no edit in progress (`null`) no row matches.
   */
  function ApplyEdit(rows: seq<User>, editing: Option<string>, form: Draft): seq<User>
  {
    Seqs.Map(rows, (u: User) => if editing == Some(u.id) then Overlay(u, form) else u)
  }

  /**
   * Save changes exactly the edited rows, to the buffer overlaid on them, and keeps the length;
   * with no edit in progress it changes nothing.
   */
  lemma ApplyEditEffect(rows: seq<User>, editing: Option<string>, form: Draft)
    ensures |ApplyEdit(rows, editing, form)| == |rows|
    ensures forall i :: 0 <= i < |rows| && editing == Some(rows[i].id) ==>
      ApplyEdit(rows, editing, form)[i] == Overlay(rows[i], form)
    ensures forall i :: 0 <= i < |rows| && editing != Some(rows[i].id) ==> ApplyEdit(rows, editing, form)[i] == rows[i]
    ensures editing == None ==> ApplyEdit(rows, editing, form) == rows
  {
  }

  /** Saving a buffer twice is saving it once, as long as the buffer keeps the edited id. */
  lemma ApplyEditIdempotent(rows: seq<User>, id: string, form: Draft)
    requires form.id == Some(id)
    ensures ApplyEdit(ApplyEdit(rows, Some(id), form), Some(id), form) == ApplyEdit(rows, Some(id), form)
  {
  }

  /**
   * The buffer is a snapshot of the whole row, so a membership change confirmed while the row
   * is being edited is undone by saving: the row gets the snapshot's status back.
   */
  lemma SaveRestoresSnapshotStatus(rows: seq<User>, row: User, status: bool, i: int)
    requires 0 <= i < |rows| && rows[i].id == row.id
    ensures ApplyEdit(SetMembership(rows, row.id, status), Some(row.id), Snapshot(row))[i].membershipStatus
            == row.membershipStatus
  {
  }

  // ---------------------------------------------------------------------------------------
  // Loading

  /** The `data` of a list response, as far as `data.users || data || []` tells them apart. */
  datatype Body =
    | ListBody(rows: seq<User>)      // a bare array: it has no `users`, and an array is truthy
    | WrappedBody(users: seq<User>)  // `{ users: [...] }`: an array is truthy even when empty
    | FalsyBody                      // `0`, `""` or `false`: falls through to `[]`
    | NullBody                       // `null` or `undefined`: reading `.users` throws

  /** `data.users || data || []`; None where reading `data.users` throws. */
  function Unwrap(body: Body): Option<seq<User>>
  {
    match body
    case ListBody(rows) => Some(rows)
    case WrappedBody(users) => Some(users)
    case FalsyBody => Some([])
    case NullBody => None
  }

  // ---------------------------------------------------------------------------------------
  // Summary

  /** The active-member count: `filteredUsers.filter(u => u.membershipStatus).length`. */
  function ActiveCount(rows: seq<User>): (r: nat)
    ensures r <= |rows|
  {
    |Seqs.Keep(rows, (u: User) => u.membershipStatus)|
  }

  /**
   * The count is the number of active rows: it reaches the list length exactly when every row
   * is active, is zero exactly when none is, and adds up over concatenation.
   */
  lemma ActiveCountSpec(rows: seq<User>, more: seq<User>)
    ensures ActiveCount(rows) == |rows| <==> forall i :: 0 <= i < |rows| ==> rows[i].membershipStatus
    ensures ActiveCount(rows) == 0 <==> forall i :: 0 <= i < |rows| ==> !rows[i].membershipStatus
    ensures ActiveCount(rows + more) == ActiveCount(rows) + ActiveCount(more)
  {
    var p := (u: User) => u.membershipStatus;
    Seqs.KeepAll(rows, p);
    Seqs.KeepNone(rows, p);
    Seqs.KeepConcat(rows, more, p);
  }
}
