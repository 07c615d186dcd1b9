/** The user table of internal/storage/user.go, held in memory. */
module UserStore {
  import opened Wrappers
  import opened Errs
  import opened Ids
  import opened Entity

  /** `GetUserFilter`: an empty selector is unset. */
  datatype GetUserFilter = GetUserFilter(email: string, userId: string)

  /** The WHERE clause `GetUser` builds: one condition per non-empty selector,
      ANDed. */
  predicate Matches(u: User, f: GetUserFilter)
  {
    (f.email != "" ==> u.email == f.email) && (f.userId != "" ==> u.id == f.userId)
  }

  /** What `First` returns: the matching row that comes first in primary-key
      order, or nothing. */
  function FirstMatch(rows: seq<User>, f: GetUserFilter): (r: Option<User>)
    ensures r.None? <==> forall i :: 0 <= i < |rows| ==> !Matches(rows[i], f)
    ensures r.Some? ==> r.value in rows && Matches(r.value, f)
    ensures r.Some? ==> forall i :: 0 <= i < |rows| && Matches(rows[i], f) ==> LexLe(r.value.id, rows[i].id)
    decreases |rows|
  {
    if rows == [] then None
    else
      var init := rows[..|rows| - 1];
      var last := rows[|rows| - 1];
      assert rows == init + [last];
      var rest := FirstMatch(init, f);
      if !Matches(last, f) then rest
      else if rest.Some? && LexLe(rest.value.id, last.id) then rest
      else
        LexLeReflexive(last.id);
        if rest.Some? then
          LexLeTotal(rest.value.id, last.id);
          assert forall i :: 0 <= i < |init| && Matches(init[i], f) ==> LexLe(last.id, init[i].id) by {
            forall i | 0 <= i < |init| && Matches(init[i], f) ensures LexLe(last.id, init[i].id) {
              LexLeTransitive(last.id, rest.value.id, init[i].id);
            }
          }
          Some(last)
        else
          Some(last)
  }

  /** Some stored row has this primary key. */
  predicate HasId(rows: seq<User>, id: string)
  {
    exists i :: 0 <= i < |rows| && rows[i].id == id
  }

  /** The primary-key constraint. */
  predicate IdsUnique(rows: seq<User>)
  {
    forall i, j :: 0 <= i < j < |rows| ==> rows[i].id != rows[j].id
  }

  /** The invariant the schema does not enforce (no unique tag on `Email`). */
  predicate EmailsUnique(rows: seq<User>)
  {
    forall i, j :: 0 <= i < j < |rows| ==> rows[i].email != rows[j].email
  }

  /** No stored id is one the oracle has yet to hand out. */
  ghost predicate FreshFrom(rows: seq<User>, serial: nat)
  {
    forall i, k :: 0 <= i < |rows| && serial <= k ==> rows[i].id != IdOf(k)
  }

  const ErrDuplicateKey: Error := Plain("duplicate key value violates unique constraint \"users_pkey\"")

  /** The outcome of an insert: its result and the table afterwards. */
  datatype Created = Created(result: Result<User, Error>, rows: seq<User>, serial: nat)

  /** `CreateUser`: gorm's INSERT.  An empty id is filled from the id oracle
      (the column default); a taken id violates the primary key; nothing else,
      the email in particular, is checked.  `fault` is the database's own
      failure for this call, if any. */
  function InsertUser(rows: seq<User>, serial: nat, user: User, fault: Option<Error>): Created
  {
    if fault.Some? then Created(Failure(fault.value), rows, serial)
    else
      var id := if user.id == "" then IdOf(serial) else user.id;
      var serial' := if user.id == "" then serial + 1 else serial;
      if HasId(rows, id) then Created(Failure(ErrDuplicateKey), rows, serial)
      else Created(Success(user.(id := id)), rows + [user.(id := id)], serial')
  }

  /** An insert either appends the given user, with its id assigned, and
      returns that same user, or fails and leaves the table alone. */
  lemma InsertUserShape(rows: seq<User>, serial: nat, user: User, fault: Option<Error>)
    ensures var c := InsertUser(rows, serial, user, fault);
      if c.result.Success? then
        && c.result.value == user.(id := c.result.value.id)
        && (user.id != "" ==> c.result.value.id == user.id)
        && (user.id == "" ==> c.result.value.id == IdOf(serial))
        && !HasId(rows, c.result.value.id)
        && c.rows == rows + [c.result.value]
      else c.rows == rows && c.serial == serial
    ensures fault.Some? ==> InsertUser(rows, serial, user, fault).result == Failure(fault.value)
  {
  }

  /** Inserting keeps the primary key unique and the oracle ahead of the table. */
  lemma {:induction false} InsertUserKeepsKeys(rows: seq<User>, serial: nat, user: User, fault: Option<Error>)
    requires IdsUnique(rows) && FreshFrom(rows, serial)
    ensures IdsUnique(InsertUser(rows, serial, user, fault).rows)
    ensures user.id == "" ==> FreshFrom(InsertUser(rows, serial, user, fault).rows, InsertUser(rows, serial, user, fault).serial)
  {
    var c := InsertUser(rows, serial, user, fault);
    if c.result.Success? {
      var id := c.result.value.id;
      assert !HasId(rows, id);
      if user.id == "" {
        forall i, k | 0 <= i < |c.rows| && c.serial <= k ensures c.rows[i].id != IdOf(k) {
          if i == |rows| {
            IdOfInjective(serial, k);
          }
        }
      }
    }
  }

  /** No email check: a user whose email is already stored is inserted all the
      same when its id is free. */
  lemma InsertIgnoresEmail(rows: seq<User>, serial: nat, user: User)
    requires user.id != "" && !HasId(rows, user.id)
    ensures InsertUser(rows, serial, user, None).result == Success(user)
    ensures InsertUser(rows, serial, user, None).rows == rows + [user]
  {
  }

  /** The in-memory user table. */
  class UserStorage {
    var rows: seq<User>
    var serial: nat

    constructor ()
      ensures rows == [] && serial == 0
    {
      rows := [];
      serial := 0;
    }

    /** `GetUser`: a store failure is returned as it is; no matching row is
        `None`, not an error. */
    method GetUser(filter: GetUserFilter, fault: Option<Error>) returns (r: Result<Option<User>, Error>)
      ensures fault.Some? ==> r == Failure(fault.value)
      ensures fault.None? ==> r == Success(FirstMatch(rows, filter))
    {
      if fault.Some? {
        return Failure(fault.value);
      }
      r := Success(FirstMatch(rows, filter));
    }

    /** `CreateUser`. */
    method CreateUser(user: User, fault: Option<Error>) returns (r: Result<User, Error>)
      modifies this
      ensures Created(r, rows, serial) == InsertUser(old(rows), old(serial), user, fault)
    {
      var c := InsertUser(rows, serial, user, fault);
      rows, serial := c.rows, c.serial;
      r := c.result;
    }
  }
}
