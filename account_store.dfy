/** The account aggregate of internal/storage/account.go, held in memory as the
    three tables gorm writes: accounts, account devices and account settings.
    A device or settings row names its account by id. */
module AccountStore {
  import opened Wrappers
  import opened Errs
  import opened Ids
  import opened Entity

  /** A row of the accounts table. */
  datatype AccountRow = AccountRow(id: string, userId: string)

  /** The whole store; `serial` is the id oracle's next draw. */
  datatype Tables = Tables(
    accounts: seq<AccountRow>, devices: seq<AccountDevice>, settings: seq<AccountSettings>, serial: nat)

  /** `GetAccountFilter`: an empty selector is unset. */
  datatype GetAccountFilter = GetAccountFilter(accountId: string, userId: string)

  // ---------------------------------------------------------------- reading

  /** The WHERE clause `GetAccount` builds: one condition per non-empty
      selector, ANDed. */
  predicate Matches(row: AccountRow, f: GetAccountFilter)
  {
    (f.accountId != "" ==> row.id == f.accountId) && (f.userId != "" ==> row.userId == f.userId)
  }

  /** What `First` returns: the matching row first in primary-key order. */
  function FirstMatch(rows: seq<AccountRow>, f: GetAccountFilter): (r: Option<AccountRow>)
    ensures r.None? <==> forall i :: 0 <= i < |rows| ==> !Matches(rows[i], f)
    ensures r.Some? ==> r.value in rows && Matches(r.value, f)
    ensures r.Some? ==> forall i :: 0 <= i < |rows| && Matches(rows[i], f) ==> LexLe(r.value.id, rows[i].id)
    decreases |rows|
  {
    if rows == [] then None
    else
      var init := rows[..|rows| - 1];
      var last := rows[|rows| - 1];
      assert rows == init + [last];
      var rest := FirstMatch(init, f);
      if !Matches(last, f) then rest
      else if rest.Some? && LexLe(rest.value.id, last.id) then rest
      else
        LexLeReflexive(last.id);
        if rest.Some? then
          LexLeTotal(rest.value.id, last.id);
          assert forall i :: 0 <= i < |init| && Matches(init[i], f) ==> LexLe(last.id, init[i].id) by {
            forall i | 0 <= i < |init| && Matches(init[i], f) ensures LexLe(last.id, init[i].id) {
              LexLeTransitive(last.id, rest.value.id, init[i].id);
            }
          }
          Some(last)
        else
          Some(last)
  }

  /** The devices preloaded for an account, in table order. */
  function DevicesOf(devices: seq<AccountDevice>, accountId: string): (ds: seq<AccountDevice>)
    ensures |ds| <= |devices|
    decreases |devices|
  {
    if devices == [] then []
    else
      var init := devices[..|devices| - 1];
      var last := devices[|devices| - 1];
      assert devices == init + [last];
      DevicesOf(init, accountId) + (if last.accountId == accountId then [last] else [])
  }

  /** The settings preloaded for an account.  The relation is has-one, so when
      several rows name the account the last one read is the one kept. */
  function SettingsOf(settings: seq<AccountSettings>, accountId: string): Option<AccountSettings>
    decreases |settings|
  {
    if settings == [] then None
    else
      var init := settings[..|settings| - 1];
      var last := settings[|settings| - 1];
      assert settings == init + [last];
      if last.accountId == accountId then Some(last) else SettingsOf(init, accountId)
  }

  /** The full aggregate of a stored account row (`Preload(clause.Associations)`). */
  function Hydrate(t: Tables, row: AccountRow): Account
  {
    Account(row.id, row.userId, DevicesOf(t.devices, row.id), SettingsOf(t.settings, row.id))
  }

  /** `GetAccount` without a store failure: the first matching aggregate, or none. */
  function LoadAccount(t: Tables, f: GetAccountFilter): Option<Account>
  {
    match FirstMatch(t.accounts, f)
    case None => None
    case Some(row) => Some(Hydrate(t, row))
  }

  /** The preloaded devices are exactly the stored devices of the account. */
  lemma {:induction false} DevicesOfMembers(devices: seq<AccountDevice>, accountId: string)
    ensures forall d :: d in DevicesOf(devices, accountId) <==> d in devices && d.accountId == accountId
    decreases |devices|
  {
    if devices != [] {
      var init := devices[..|devices| - 1];
      DevicesOfMembers(init, accountId);
      assert devices == init + [devices[|devices| - 1]];
    }
  }

  /** The preloaded settings are the account's, and absent only when the
      account has none. */
  lemma {:induction false} SettingsOfMembers(settings: seq<AccountSettings>, accountId: string)
    ensures var r := SettingsOf(settings, accountId);
      && (r.None? <==> forall i :: 0 <= i < |settings| ==> settings[i].accountId != accountId)
      && (r.Some? ==> r.value in settings && r.value.accountId == accountId)
    decreases |settings|
  {
    if settings != [] {
      var init := settings[..|settings| - 1];
      SettingsOfMembers(init, accountId);
      assert settings == init + [settings[|settings| - 1]];
    }
  }

  /** What `GetAccount` finds: nothing exactly when no row matches; otherwise
      the first matching row in key order, with all of that account's devices
      and its settings when it has any. */
  lemma {:induction false} LoadAccountSpec(t: Tables, f: GetAccountFilter)
    ensures var r := LoadAccount(t, f);
      && (r.None? <==> forall i :: 0 <= i < |t.accounts| ==> !Matches(t.accounts[i], f))
      && (r.Some? ==>
            && (exists i :: 0 <= i < |t.accounts| && Matches(t.accounts[i], f)
                            && r.value.id == t.accounts[i].id && r.value.userId == t.accounts[i].userId)
            && (forall i :: 0 <= i < |t.accounts| && Matches(t.accounts[i], f) ==> LexLe(r.value.id, t.accounts[i].id))
            && (forall d :: d in r.value.devices <==> d in t.devices && d.accountId == r.value.id)
            && (r.value.settings.None? <==> forall i :: 0 <= i < |t.settings| ==> t.settings[i].accountId != r.value.id)
            && (r.value.settings.Some? ==> r.value.settings.value in t.settings && r.value.settings.value.accountId == r.value.id))
  {
    var m := FirstMatch(t.accounts, f);
    if m.Some? {
      DevicesOfMembers(t.devices, m.value.id);
      SettingsOfMembers(t.settings, m.value.id);
      var i :| 0 <= i < |t.accounts| && t.accounts[i] == m.value;
    }
  }

  // ---------------------------------------------------------------- keys

  predicate HasAccount(rows: seq<AccountRow>, id: string)
  {
    exists i :: 0 <= i < |rows| && rows[i].id == id
  }

  /** The position of the account row with this id. */
  function AccountIndex(rows: seq<AccountRow>, id: string): (r: Option<nat>)
    ensures r.None? <==> !HasAccount(rows, id)
    ensures r.Some? ==> r.value < |rows| && rows[r.value].id == id
    decreases |rows|
  {
    if rows == [] then None
    else if rows[|rows| - 1].id == id then Some(|rows| - 1)
    else
      var r := AccountIndex(rows[..|rows| - 1], id);
      assert forall i :: 0 <= i < |rows| - 1 ==> rows[..|rows| - 1][i] == rows[i];
      r
  }

  function DeviceIndex(rows: seq<AccountDevice>, id: string): (r: Option<nat>)
    ensures r.None? <==> forall i :: 0 <= i < |rows| ==> rows[i].id != id
    ensures r.Some? ==> r.value < |rows| && rows[r.value].id == id
    decreases |rows|
  {
    if rows == [] then None
    else if rows[|rows| - 1].id == id then Some(|rows| - 1)
    else
      var r := DeviceIndex(rows[..|rows| - 1], id);
      assert forall i :: 0 <= i < |rows| - 1 ==> rows[..|rows| - 1][i] == rows[i];
      r
  }

  function SettingsIndex(rows: seq<AccountSettings>, id: string): (r: Option<nat>)
    ensures r.None? <==> forall i :: 0 <= i < |rows| ==> rows[i].id != id
    ensures r.Some? ==> r.value < |rows| && rows[r.value].id == id
    decreases |rows|
  {
    if rows == [] then None
    else if rows[|rows| - 1].id == id then Some(|rows| - 1)
    else
      var r := SettingsIndex(rows[..|rows| - 1], id);
      assert forall i :: 0 <= i < |rows| - 1 ==> rows[..|rows| - 1][i] == rows[i];
      r
  }

  /** The constraints the schema declares: a primary key per table, and the
      foreign key from devices and settings to accounts. */
  predicate Consistent(t: Tables)
  {
    && AccountIdsUnique(t.accounts)
    && DeviceIdsUnique(t.devices)
    && SettingsIdsUnique(t.settings)
    && DevicesOwned(t.devices, t.accounts)
    && SettingsOwned(t.settings, t.accounts)
  }

  predicate AccountIdsUnique(rows: seq<AccountRow>)
  {
    forall i, j :: 0 <= i < j < |rows| ==> rows[i].id != rows[j].id
  }

  predicate DeviceIdsUnique(rows: seq<AccountDevice>)
  {
    forall i, j :: 0 <= i < j < |rows| ==> rows[i].id != rows[j].id
  }

  predicate SettingsIdsUnique(rows: seq<AccountSettings>)
  {
    forall i, j :: 0 <= i < j < |rows| ==> rows[i].id != rows[j].id
  }

  predicate DevicesOwned(rows: seq<AccountDevice>, accounts: seq<AccountRow>)
  {
    forall i :: 0 <= i < |rows| ==> HasAccount(accounts, rows[i].accountId)
  }

  predicate SettingsOwned(rows: seq<AccountSettings>, accounts: seq<AccountRow>)
  {
    forall i :: 0 <= i < |rows| ==> HasAccount(accounts, rows[i].accountId)
  }

  /** No id stored in these rows is one the oracle hands out from `upto` on. */
  ghost predicate AccountsFresh(rows: seq<AccountRow>, upto: nat)
  {
    forall i, k :: 0 <= i < |rows| && upto <= k ==> rows[i].id != IdOf(k)
  }

  ghost predicate DevicesFresh(rows: seq<AccountDevice>, upto: nat)
  {
    forall i, k :: 0 <= i < |rows| && upto <= k ==> rows[i].id != IdOf(k)
  }

  ghost predicate SettingsFresh(rows: seq<AccountSettings>, upto: nat)
  {
    forall i, k :: 0 <= i < |rows| && upto <= k ==> rows[i].id != IdOf(k)
  }

  /** No stored id is one the oracle has yet to hand out. */
  ghost predicate FreshFrom(t: Tables)
  {
    AccountsFresh(t.accounts, t.serial) && DevicesFresh(t.devices, t.serial) && SettingsFresh(t.settings, t.serial)
  }

  // ---------------------------------------------------------------- writing

  /** The number of devices that bring no id of their own. */
  function Blanks(ds: seq<AccountDevice>): (n: nat)
    ensures n <= |ds|
    decreases |ds|
  {
    if ds == [] then 0 else (if ds[0].id == "" then 1 else 0) + Blanks(ds[1..])
  }

  /** One association row as gorm writes it: the parent's id as foreign key,
      and an id from the column default (the oracle's draw `k`) when empty. */
  function AssignDevice(d: AccountDevice, accountId: string, k: nat): AccountDevice
  {
    d.(id := if d.id == "" then IdOf(k) else d.id, accountId := accountId)
  }

  /** The devices of a saved aggregate, in order; each device without an id
      takes the oracle's next draw. */
  function AssignDevices(ds: seq<AccountDevice>, accountId: string, serial: nat): (r: seq<AccountDevice>)
    ensures |r| == |ds|
    decreases |ds|
  {
    if ds == [] then []
    else
      [AssignDevice(ds[0], accountId, serial)]
        + AssignDevices(ds[1..], accountId, if ds[0].id == "" then serial + 1 else serial)
  }

  /** The settings of a saved aggregate: the account's id as foreign key, and
      the oracle's draw `serial` as id when they bring none. */
  function AssignSettings(s: Option<AccountSettings>, accountId: string, serial: nat): Option<AccountSettings>
  {
    match s
    case None => None
    case Some(st) => Some(st.(id := if st.id == "" then IdOf(serial) else st.id, accountId := accountId))
  }

  /** The draws the settings take: one when they bring no id. */
  function SettingsBlanks(s: Option<AccountSettings>): nat
  {
    if s.Some? && s.value.id == "" then 1 else 0
  }

  /** The id of the account row a save writes: its own, or the oracle's next draw. */
  function NewId(t: Tables, account: Account): string
  {
    if account.id == "" then IdOf(t.serial) else account.id
  }

  /** The oracle's next draw once the account row has its id. */
  function FirstDraw(t: Tables, account: Account): nat
  {
    if account.id == "" then t.serial + 1 else t.serial
  }

  /** The oracle's state after the aggregate is saved. */
  function NextSerial(t: Tables, account: Account): nat
  {
    FirstDraw(t, account) + Blanks(account.devices) + SettingsBlanks(account.settings)
  }

  /** The aggregate as a save writes it: every empty id filled from the
      oracle, in the order account, devices, settings, and the account's id as
      the foreign key of every association. */
  function Assigned(t: Tables, account: Account): Account
  {
    var id := NewId(t, account);
    var s0 := FirstDraw(t, account);
    Account(id, account.userId, AssignDevices(account.devices, id, s0),
            AssignSettings(account.settings, id, s0 + Blanks(account.devices)))
  }

  /** Saving one association row by primary key.  On a new id the row is
      inserted.  On a taken id a plain save (`Create`) only moves the existing
      row to this parent, while a full save (`FullSaveAssociations`) overwrites
      every column, zero values included. */
  function UpsertDevice(rows: seq<AccountDevice>, d: AccountDevice, fullSave: bool): seq<AccountDevice>
  {
    match DeviceIndex(rows, d.id)
    case None => rows + [d]
    case Some(i) => rows[i := if fullSave then d else rows[i].(accountId := d.accountId)]
  }

  function UpsertDevices(rows: seq<AccountDevice>, ds: seq<AccountDevice>, fullSave: bool): seq<AccountDevice>
    decreases |ds|
  {
    if ds == [] then rows else UpsertDevices(UpsertDevice(rows, ds[0], fullSave), ds[1..], fullSave)
  }

  function UpsertSettings(rows: seq<AccountSettings>, s: Option<AccountSettings>, fullSave: bool): seq<AccountSettings>
  {
    match s
    case None => rows
    case Some(st) =>
      match SettingsIndex(rows, st.id)
      case None => rows + [st]
      case Some(i) => rows[i := if fullSave then st else rows[i].(accountId := st.accountId)]
  }

  /** The store once the assigned aggregate `a` is written beside the
      accounts table `accounts`. */
  function WriteAggregate(t: Tables, accounts: seq<AccountRow>, a: Account, fullSave: bool, next: nat): Tables
  {
    Tables(accounts, UpsertDevices(t.devices, a.devices, fullSave), UpsertSettings(t.settings, a.settings, fullSave), next)
  }

  const ErrDuplicateKey: Error := Plain("duplicate key value violates unique constraint \"accounts_pkey\"")
  const ErrMissingWhereClause: Error := Plain("WHERE conditions required")
  const ErrForeignKey: Error := Plain("insert or update violates foreign key constraint")
  const ErrRecordNotFound: Error := Plain("record not found")
  const ErrRowTwice: Error := Plain("ON CONFLICT DO UPDATE command cannot affect row a second time")

  /** The outcome of a write: its result and the store afterwards. */
  datatype Stored = Stored(result: Result<Account, Error>, tables: Tables)

  /** `CreateAccount`: gorm's `Create` of the aggregate, in one transaction.
      A store failure (`fault`), a taken account id, or two devices with the
      same id (one multi-row upsert may not touch a row twice) leaves the store
      as it was. */
  function InsertAccount(t: Tables, account: Account, fault: Option<Error>): Stored
  {
    if fault.Some? then Stored(Failure(fault.value), t)
    else if HasAccount(t.accounts, NewId(t, account)) then Stored(Failure(ErrDuplicateKey), t)
    else
      var a := Assigned(t, account);
      if !DistinctIds(a.devices) then Stored(Failure(ErrRowTwice), t)
      else Stored(Success(a), WriteAggregate(t, t.accounts + [AccountRow(a.id, a.userId)], a, false, NextSerial(t, account)))
  }

  /** `UpdateAccount`: a full save of the aggregate onto the row whose id is
      `account.id`, every field written (zero values too), then a reload of that
      row by id.  `fault` is a failure of the write, `reloadFault` one of the
      reload, which comes after the write has been committed.  Two devices
      with the same id make the write fail as a whole. */
  function SaveAccount(t: Tables, account: Account, fault: Option<Error>, reloadFault: Option<Error>): Stored
  {
    if fault.Some? then Stored(Failure(fault.value), t)
    else if account.id == "" then Stored(Failure(ErrMissingWhereClause), t)
    else
      match AccountIndex(t.accounts, account.id)
      case None =>
        // the UPDATE matches no row; saving an association would break the
        // foreign key, and otherwise the reload finds nothing
        Stored(Failure(if account.devices != [] || account.settings.Some? then ErrForeignKey else ErrRecordNotFound), t)
      case Some(i) =>
        var a := Assigned(t, account);
        if !DistinctIds(a.devices) then Stored(Failure(ErrRowTwice), t)
        else
          var t' := WriteAggregate(t, t.accounts[i := AccountRow(a.id, a.userId)], a, true, NextSerial(t, account));
          if reloadFault.Some? then Stored(Failure(reloadFault.value), t')
          else Stored(Success(Hydrate(t', t'.accounts[i])), t')
  }

  // ---------------------------------------------------------------- assigning ids

  /** Every assigned device keeps its columns, takes the account's id as
      foreign key, and keeps an id it brings. */
  lemma {:induction false} AssignDevicesKeeps(ds: seq<AccountDevice>, accountId: string, serial: nat)
    ensures var r := AssignDevices(ds, accountId, serial);
      forall i :: 0 <= i < |ds| ==>
        && r[i] == ds[i].(id := r[i].id, accountId := accountId)
        && (ds[i].id != "" ==> r[i].id == ds[i].id)
    decreases |ds|
  {
    if ds != [] {
      var next := if ds[0].id == "" then serial + 1 else serial;
      var rest := AssignDevices(ds[1..], accountId, next);
      AssignDevicesKeeps(ds[1..], accountId, next);
      assert AssignDevices(ds, accountId, serial) == [AssignDevice(ds[0], accountId, serial)] + rest;
      assert forall i :: 0 < i < |ds| ==> ds[i] == ds[1..][i - 1];
    }
  }

  /** Each device without an id takes a draw in `[serial, serial + Blanks(ds))`. */
  lemma {:induction false} AssignDevicesRange(ds: seq<AccountDevice>, accountId: string, serial: nat)
    ensures forall i :: 0 <= i < |ds| && ds[i].id == "" ==>
      exists k :: serial <= k < serial + Blanks(ds) && AssignDevices(ds, accountId, serial)[i].id == IdOf(k)
    decreases |ds|
  {
    if ds != [] {
      var next := if ds[0].id == "" then serial + 1 else serial;
      var rest := AssignDevices(ds[1..], accountId, next);
      var r := AssignDevices(ds, accountId, serial);
      AssignDevicesRange(ds[1..], accountId, next);
      assert r == [AssignDevice(ds[0], accountId, serial)] + rest;
      forall i | 0 <= i < |ds| && ds[i].id == ""
        ensures exists k :: serial <= k < serial + Blanks(ds) && r[i].id == IdOf(k)
      {
        if i == 0 {
          assert r[0].id == IdOf(serial);
        } else {
          assert ds[1..][i - 1] == ds[i] && r[i] == rest[i - 1];
          var k :| next <= k < next + Blanks(ds[1..]) && rest[i - 1].id == IdOf(k);
          assert r[i].id == IdOf(k);
        }
      }
    }
  }

  /** No two devices without an id take the same draw. */
  lemma {:induction false} AssignDevicesDistinct(ds: seq<AccountDevice>, accountId: string, serial: nat)
    ensures forall i, j :: 0 <= i < j < |ds| && ds[i].id == "" && ds[j].id == "" ==>
      AssignDevices(ds, accountId, serial)[i].id != AssignDevices(ds, accountId, serial)[j].id
    decreases |ds|
  {
    if ds != [] {
      var next := if ds[0].id == "" then serial + 1 else serial;
      var rest := AssignDevices(ds[1..], accountId, next);
      var r := AssignDevices(ds, accountId, serial);
      AssignDevicesDistinct(ds[1..], accountId, next);
      AssignDevicesRange(ds[1..], accountId, next);
      assert r == [AssignDevice(ds[0], accountId, serial)] + rest;
      forall i, j | 0 <= i < j < |ds| && ds[i].id == "" && ds[j].id == "" ensures r[i].id != r[j].id {
        assert ds[1..][j - 1] == ds[j] && r[j] == rest[j - 1];
        if i == 0 {
          var k :| next <= k < next + Blanks(ds[1..]) && rest[j - 1].id == IdOf(k);
          IdOfInjective(serial, k);
        } else {
          assert ds[1..][i - 1] == ds[i] && r[i] == rest[i - 1];
        }
      }
    }
  }

  lemma {:induction false} AllBlank(ds: seq<AccountDevice>)
    requires forall i :: 0 <= i < |ds| ==> ds[i].id == ""
    ensures Blanks(ds) == |ds|
    decreases |ds|
  {
    if ds != [] {
      assert forall i :: 0 <= i < |ds[1..]| ==> ds[1..][i].id == "";
      AllBlank(ds[1..]);
    }
  }

  lemma {:induction false} AssignBlankAt(ds: seq<AccountDevice>, accountId: string, serial: nat, i: nat)
    requires i < |ds| && forall j :: 0 <= j < |ds| ==> ds[j].id == ""
    ensures AssignDevices(ds, accountId, serial)[i] == AssignDevice(ds[i], accountId, serial + i)
    decreases i
  {
    if i > 0 {
      assert forall j :: 0 <= j < |ds[1..]| ==> ds[1..][j].id == "";
      AssignBlankAt(ds[1..], accountId, serial + 1, i - 1);
      assert ds[1..][i - 1] == ds[i];
    }
  }

  /** When no device brings an id, the oracle numbers them in order. */
  lemma AssignDevicesInOrder(ds: seq<AccountDevice>, accountId: string, serial: nat)
    requires forall i :: 0 <= i < |ds| ==> ds[i].id == ""
    ensures Blanks(ds) == |ds|
    ensures forall i :: 0 <= i < |ds| ==>
      AssignDevices(ds, accountId, serial)[i].id == IdOf(serial + i) && AssignDevices(ds, accountId, serial)[i].accountId == accountId
  {
    AllBlank(ds);
    forall i | 0 <= i < |ds|
      ensures AssignDevices(ds, accountId, serial)[i].id == IdOf(serial + i)
      ensures AssignDevices(ds, accountId, serial)[i].accountId == accountId
    {
      AssignBlankAt(ds, accountId, serial, i);
    }
  }

  /** Every association of the assigned aggregate names the account. */
  lemma {:induction false} AssignedOwned(t: Tables, account: Account)
    ensures var a := Assigned(t, account);
      && a.id == NewId(t, account) && a.userId == account.userId
      && |a.devices| == |account.devices|
      && (forall i :: 0 <= i < |a.devices| ==> a.devices[i].accountId == a.id)
      && (a.settings.Some? <==> account.settings.Some?)
      && (a.settings.Some? ==> a.settings.value.accountId == a.id)
  {
    AssignDevicesKeeps(account.devices, NewId(t, account), FirstDraw(t, account));
  }

  /** No id the caller gives is one the oracle has yet to hand out. */
  ghost predicate NoFutureIds(a: Account, serial: nat)
  {
    && (a.id != "" ==> forall k :: serial <= k ==> a.id != IdOf(k))
    && (forall i, k :: 0 <= i < |a.devices| && a.devices[i].id != "" && serial <= k ==> a.devices[i].id != IdOf(k))
    && (a.settings.Some? && a.settings.value.id != "" ==> forall k :: serial <= k ==> a.settings.value.id != IdOf(k))
  }

  /** The assigned device ids are the given ones or ids drawn in this call. */
  lemma {:induction false} AssignedDevicesFresh(ds: seq<AccountDevice>, accountId: string, serial: nat, upto: nat)
    requires forall i, k :: 0 <= i < |ds| && ds[i].id != "" && serial <= k ==> ds[i].id != IdOf(k)
    requires serial + Blanks(ds) <= upto
    ensures DevicesFresh(AssignDevices(ds, accountId, serial), upto)
  {
    var r := AssignDevices(ds, accountId, serial);
    AssignDevicesKeeps(ds, accountId, serial);
    AssignDevicesRange(ds, accountId, serial);
    forall j, k | 0 <= j < |r| && upto <= k ensures r[j].id != IdOf(k) {
      if ds[j].id == "" {
        var k0 :| serial <= k0 < serial + Blanks(ds) && r[j].id == IdOf(k0);
        IdOfInjective(k0, k);
      }
    }
  }

  /** Every id of the assigned aggregate is given by the caller or drawn
      before `NextSerial`, so none is one the oracle hands out afterwards. */
  lemma {:induction false} AssignedFresh(t: Tables, account: Account)
    requires NoFutureIds(account, t.serial)
    ensures var a := Assigned(t, account);
      var next := NextSerial(t, account);
      && t.serial <= next
      && (forall k :: next <= k ==> a.id != IdOf(k))
      && DevicesFresh(a.devices, next)
      && (a.settings.Some? ==> forall k :: next <= k ==> a.settings.value.id != IdOf(k))
  {
    var a := Assigned(t, account);
    var next := NextSerial(t, account);
    var s1 := FirstDraw(t, account) + Blanks(account.devices);
    forall k | next <= k ensures a.id != IdOf(k) {
      IdOfInjective(t.serial, k);
    }
    AssignedDevicesFresh(account.devices, a.id, FirstDraw(t, account), next);
    forall k | a.settings.Some? && next <= k ensures a.settings.value.id != IdOf(k) {
      IdOfInjective(s1, k);
    }
  }

  // ---------------------------------------------------------------- upserting

  /** An upsert keeps every row with another id, and leaves the saved row in
      the table. */
  lemma {:induction false} UpsertDeviceKeeps(rows: seq<AccountDevice>, d: AccountDevice, fullSave: bool)
    ensures forall x :: x in rows && x.id != d.id ==> x in UpsertDevice(rows, d, fullSave)
    ensures fullSave ==> d in UpsertDevice(rows, d, fullSave)
    ensures forall x :: x in UpsertDevice(rows, d, fullSave) ==> x in rows || x.id == d.id
  {
    match DeviceIndex(rows, d.id)
    case None =>
    case Some(i) =>
      var r := UpsertDevice(rows, d, fullSave);
      forall x | x in rows && x.id != d.id ensures x in r {
        var j :| 0 <= j < |rows| && rows[j] == x;
        assert r[j] == x;
      }
      if fullSave {
        assert r[i] == d;
      }
  }

  predicate DistinctIds(ds: seq<AccountDevice>)
  {
    forall i, j :: 0 <= i < j < |ds| ==> ds[i].id != ds[j].id
  }

  lemma {:induction false} DistinctIdsTail(ds: seq<AccountDevice>)
    requires ds != [] && DistinctIds(ds)
    ensures DistinctIds(ds[1..])
  {
    forall i, j | 0 <= i < j < |ds[1..]| ensures ds[1..][i].id != ds[1..][j].id {
      assert ds[1..][i] == ds[i + 1] && ds[1..][j] == ds[j + 1];
    }
  }

  /** A full save of devices with distinct ids leaves each of them stored as
      given, and keeps every stored device whose id none of them has. */
  lemma {:induction false} UpsertDevicesStores(rows: seq<AccountDevice>, ds: seq<AccountDevice>)
    requires DistinctIds(ds)
    ensures forall d :: d in ds ==> d in UpsertDevices(rows, ds, true)
    ensures forall x :: x in rows && (forall d :: d in ds ==> d.id != x.id) ==> x in UpsertDevices(rows, ds, true)
    decreases |ds|
  {
    if ds != [] {
      var rows' := UpsertDevice(rows, ds[0], true);
      UpsertDeviceKeeps(rows, ds[0], true);
      DistinctIdsTail(ds);
      UpsertDevicesStores(rows', ds[1..]);
      forall d | d in ds ensures d in UpsertDevices(rows, ds, true) {
        if d == ds[0] {
          forall e | e in ds[1..] ensures e.id != d.id {
            var j :| 0 <= j < |ds[1..]| && ds[1..][j] == e;
            assert ds[j + 1] == e;
          }
        } else {
          assert d in ds[1..];
        }
      }
      forall x | x in rows && (forall d :: d in ds ==> d.id != x.id)
        ensures x in UpsertDevices(rows, ds, true)
      {
        assert ds[0] in ds;
        forall e | e in ds[1..] ensures e.id != x.id {
          assert e in ds;
        }
      }
    }
  }

  /** Upserting keeps the devices' primary key unique. */
  lemma {:induction false} UpsertDevicesKeepUnique(rows: seq<AccountDevice>, ds: seq<AccountDevice>, fullSave: bool)
    requires DeviceIdsUnique(rows)
    ensures DeviceIdsUnique(UpsertDevices(rows, ds, fullSave))
    decreases |ds|
  {
    if ds != [] {
      var rows' := UpsertDevice(rows, ds[0], fullSave);
      assert DeviceIdsUnique(rows') by {
        match DeviceIndex(rows, ds[0].id)
        case None =>
        case Some(i) =>
      }
      UpsertDevicesKeepUnique(rows', ds[1..], fullSave);
    }
  }

  /** An upsert moves rows only to the accounts of the saved devices, so it
      keeps every device owned by a stored account. */
  lemma {:induction false} UpsertDevicesOwners(rows: seq<AccountDevice>, ds: seq<AccountDevice>, fullSave: bool, accounts: seq<AccountRow>)
    requires DevicesOwned(rows, accounts) && DevicesOwned(ds, accounts)
    ensures DevicesOwned(UpsertDevices(rows, ds, fullSave), accounts)
    decreases |ds|
  {
    if ds != [] {
      var rows' := UpsertDevice(rows, ds[0], fullSave);
      assert HasAccount(accounts, ds[0].accountId);
      assert DevicesOwned(rows', accounts) by {
        match DeviceIndex(rows, ds[0].id)
        case None =>
          assert forall i :: 0 <= i < |rows'| ==> (i < |rows| && rows'[i] == rows[i]) || rows'[i] == ds[0];
        case Some(j) =>
          assert forall i :: 0 <= i < |rows'| ==> rows'[i] == rows[i] || rows'[i].accountId == ds[0].accountId;
      }
      assert DevicesOwned(ds[1..], accounts) by {
        assert forall i :: 0 <= i < |ds[1..]| ==> ds[1..][i] == ds[i + 1];
      }
      UpsertDevicesOwners(rows', ds[1..], fullSave, accounts);
    }
  }

  /** Saving settings keeps the settings' primary key unique and every
      settings row owned by a stored account. */
  lemma {:induction false} UpsertSettingsKeeps(rows: seq<AccountSettings>, s: Option<AccountSettings>, fullSave: bool, accounts: seq<AccountRow>)
    requires SettingsIdsUnique(rows) && SettingsOwned(rows, accounts)
    requires s.Some? ==> HasAccount(accounts, s.value.accountId)
    ensures SettingsIdsUnique(UpsertSettings(rows, s, fullSave))
    ensures SettingsOwned(UpsertSettings(rows, s, fullSave), accounts)
  {
    if s.Some? {
      var r := UpsertSettings(rows, s, fullSave);
      match SettingsIndex(rows, s.value.id)
      case None =>
        assert forall i :: 0 <= i < |r| ==> (i < |rows| && r[i] == rows[i]) || r[i] == s.value;
      case Some(j) =>
        assert forall i :: 0 <= i < |r| ==> r[i] == rows[i] || r[i].accountId == s.value.accountId;
    }
  }

  /** A full save stores the settings as given. */
  lemma {:induction false} UpsertSettingsStores(rows: seq<AccountSettings>, s: Option<AccountSettings>)
    requires s.Some?
    ensures s.value in UpsertSettings(rows, s, true)
  {
    var r := UpsertSettings(rows, s, true);
    match SettingsIndex(rows, s.value.id)
    case None =>
      assert r[|rows|] == s.value;
    case Some(j) =>
      assert r[j] == s.value;
  }

  /** Saving settings keeps every settings row with another id. */
  lemma UpsertSettingsKeepsOthers(rows: seq<AccountSettings>, s: Option<AccountSettings>, fullSave: bool)
    ensures forall x :: x in rows && (s.None? || x.id != s.value.id) ==> x in UpsertSettings(rows, s, fullSave)
  {
    if s.Some? {
      var r := UpsertSettings(rows, s, fullSave);
      forall x | x in rows && x.id != s.value.id ensures x in r {
        var k :| 0 <= k < |rows| && rows[k] == x;
        match SettingsIndex(rows, s.value.id)
        case None => assert r[k] == x;
        case Some(m) => assert r[k] == x;
      }
    }
  }

  /** Every row of a saved devices table was stored before or has the id of
      one of the saved devices. */
  lemma {:induction false} UpsertDevicesFrom(rows: seq<AccountDevice>, ds: seq<AccountDevice>, fullSave: bool)
    ensures forall x :: x in UpsertDevices(rows, ds, fullSave) ==> x in rows || exists j :: 0 <= j < |ds| && ds[j].id == x.id
    decreases |ds|
  {
    if ds != [] {
      var rows' := UpsertDevice(rows, ds[0], fullSave);
      UpsertDeviceKeeps(rows, ds[0], fullSave);
      UpsertDevicesFrom(rows', ds[1..], fullSave);
      forall x | x in UpsertDevices(rows, ds, fullSave)
        ensures x in rows || exists j :: 0 <= j < |ds| && ds[j].id == x.id
      {
        if !(x in rows') {
          var j :| 0 <= j < |ds[1..]| && ds[1..][j].id == x.id;
          assert ds[j + 1].id == x.id;
        } else if !(x in rows) {
          assert ds[0].id == x.id;
        }
      }
    }
  }

  /** Saving devices none of whose ids the oracle is yet to hand out keeps
      the table free of such ids. */
  lemma {:induction false} UpsertDevicesStayFresh(rows: seq<AccountDevice>, ds: seq<AccountDevice>, fullSave: bool, upto: nat)
    requires DevicesFresh(rows, upto) && DevicesFresh(ds, upto)
    ensures DevicesFresh(UpsertDevices(rows, ds, fullSave), upto)
  {
    var r := UpsertDevices(rows, ds, fullSave);
    UpsertDevicesFrom(rows, ds, fullSave);
    forall i, k | 0 <= i < |r| && upto <= k ensures r[i].id != IdOf(k) {
      assert r[i] in r;
      if !(r[i] in rows) {
        var j :| 0 <= j < |ds| && ds[j].id == r[i].id;
      }
    }
  }

  lemma {:induction false} UpsertSettingsStayFresh(rows: seq<AccountSettings>, s: Option<AccountSettings>, fullSave: bool, upto: nat)
    requires SettingsFresh(rows, upto)
    requires s.Some? ==> forall k :: upto <= k ==> s.value.id != IdOf(k)
    ensures SettingsFresh(UpsertSettings(rows, s, fullSave), upto)
  {
  }

  /** No id of `ds` is stored in `rows`. */
  predicate IdsDisjoint(rows: seq<AccountDevice>, ds: seq<AccountDevice>)
  {
    forall i, j :: 0 <= i < |rows| && 0 <= j < |ds| ==> rows[i].id != ds[j].id
  }

  lemma {:induction false} IdsDisjointShift(rows: seq<AccountDevice>, ds: seq<AccountDevice>)
    requires ds != [] && IdsDisjoint(rows, ds) && DistinctIds(ds)
    ensures IdsDisjoint(rows + [ds[0]], ds[1..])
  {
    var rows' := rows + [ds[0]];
    forall i, j | 0 <= i < |rows'| && 0 <= j < |ds[1..]| ensures rows'[i].id != ds[1..][j].id {
      assert ds[1..][j] == ds[j + 1];
      if i == |rows| { assert rows'[i] == ds[0]; }
    }
  }

  lemma AppendShift(rows: seq<AccountDevice>, ds: seq<AccountDevice>)
    requires ds != []
    ensures (rows + [ds[0]]) + ds[1..] == rows + ds
  {
    assert ds == [ds[0]] + ds[1..];
  }

  /** Saving devices with distinct ids none of which is stored appends them. */
  lemma {:induction false} UpsertNewDevices(rows: seq<AccountDevice>, ds: seq<AccountDevice>)
    requires IdsDisjoint(rows, ds) && DistinctIds(ds)
    ensures UpsertDevices(rows, ds, false) == rows + ds
    decreases |ds|
  {
    if ds != [] {
      var rows' := rows + [ds[0]];
      assert DeviceIndex(rows, ds[0].id).None?;
      assert UpsertDevice(rows, ds[0], false) == rows';
      IdsDisjointShift(rows, ds);
      DistinctIdsTail(ds);
      UpsertNewDevices(rows', ds[1..]);
      AppendShift(rows, ds);
    }
  }

  // ---------------------------------------------------------------- the stores' invariants

  /** Appending a row with a new id keeps the accounts' key unique and every
      stored account. */
  lemma {:induction false} AppendAccountRow(rows: seq<AccountRow>, row: AccountRow)
    requires AccountIdsUnique(rows) && !HasAccount(rows, row.id)
    ensures AccountIdsUnique(rows + [row]) && HasAccount(rows + [row], row.id)
    ensures forall x :: HasAccount(rows, x) ==> HasAccount(rows + [row], x)
  {
    assert (rows + [row])[|rows|] == row;
    forall x | HasAccount(rows, x) ensures HasAccount(rows + [row], x) {
      var i :| 0 <= i < |rows| && rows[i].id == x;
      assert (rows + [row])[i].id == x;
    }
  }

  /** Rewriting a row in place under its own id keeps the accounts' key
      unique and every stored account. */
  lemma {:induction false} ReplaceAccountRow(rows: seq<AccountRow>, i: nat, row: AccountRow)
    requires i < |rows| && rows[i].id == row.id && AccountIdsUnique(rows)
    ensures AccountIdsUnique(rows[i := row]) && HasAccount(rows[i := row], row.id)
    ensures forall x :: HasAccount(rows, x) ==> HasAccount(rows[i := row], x)
  {
    var rows' := rows[i := row];
    assert forall j :: 0 <= j < |rows'| ==> rows'[j].id == rows[j].id;
    forall x | HasAccount(rows, x) ensures HasAccount(rows', x) {
      var j :| 0 <= j < |rows| && rows[j].id == x;
      assert rows'[j].id == x;
    }
  }

  /** Associations stay owned when no stored account is lost. */
  lemma {:induction false} OwnersMove(t: Tables, accounts: seq<AccountRow>)
    requires DevicesOwned(t.devices, t.accounts) && SettingsOwned(t.settings, t.accounts)
    requires forall x :: HasAccount(t.accounts, x) ==> HasAccount(accounts, x)
    ensures DevicesOwned(t.devices, accounts) && SettingsOwned(t.settings, accounts)
  {
  }

  /** Writing an aggregate whose associations name a stored account keeps
      every key and foreign key. */
  lemma {:induction false} ConsistentAfterWrite(t: Tables, accounts: seq<AccountRow>, a: Account, fullSave: bool, next: nat)
    requires DeviceIdsUnique(t.devices) && SettingsIdsUnique(t.settings) && AccountIdsUnique(accounts)
    requires DevicesOwned(t.devices, accounts) && SettingsOwned(t.settings, accounts)
    requires HasAccount(accounts, a.id)
    requires forall i :: 0 <= i < |a.devices| ==> a.devices[i].accountId == a.id
    requires a.settings.Some? ==> a.settings.value.accountId == a.id
    ensures Consistent(WriteAggregate(t, accounts, a, fullSave, next))
  {
    assert DevicesOwned(a.devices, accounts);
    UpsertDevicesKeepUnique(t.devices, a.devices, fullSave);
    UpsertDevicesOwners(t.devices, a.devices, fullSave, accounts);
    UpsertSettingsKeeps(t.settings, a.settings, fullSave, accounts);
  }

  /** Creating an account keeps the keys and foreign keys of the store. */
  lemma {:induction false} InsertAccountKeepsConsistent(t: Tables, account: Account, fault: Option<Error>)
    requires Consistent(t)
    ensures Consistent(InsertAccount(t, account, fault).tables)
  {
    if fault.None? && !HasAccount(t.accounts, NewId(t, account)) && DistinctIds(Assigned(t, account).devices) {
      var a := Assigned(t, account);
      var row := AccountRow(a.id, a.userId);
      AssignedOwned(t, account);
      AppendAccountRow(t.accounts, row);
      OwnersMove(t, t.accounts + [row]);
      ConsistentAfterWrite(t, t.accounts + [row], a, false, NextSerial(t, account));
    }
  }

  /** Updating an account keeps the keys and foreign keys of the store. */
  lemma {:induction false} SaveAccountKeepsConsistent(t: Tables, account: Account, fault: Option<Error>, reloadFault: Option<Error>)
    requires Consistent(t)
    ensures Consistent(SaveAccount(t, account, fault, reloadFault).tables)
  {
    if fault.None? && account.id != "" && AccountIndex(t.accounts, account.id).Some? && DistinctIds(Assigned(t, account).devices) {
      var i := AccountIndex(t.accounts, account.id).value;
      var a := Assigned(t, account);
      var row := AccountRow(a.id, a.userId);
      AssignedOwned(t, account);
      ReplaceAccountRow(t.accounts, i, row);
      OwnersMove(t, t.accounts[i := row]);
      ConsistentAfterWrite(t, t.accounts[i := row], a, true, NextSerial(t, account));
    }
  }

  /** The store after a write is fresh when every row it gains is. */
  lemma {:induction false} FreshAfterWrite(t: Tables, accounts: seq<AccountRow>, a: Account, fullSave: bool, upto: nat)
    requires FreshFrom(t) && t.serial <= upto
    requires AccountsFresh(accounts, upto) && DevicesFresh(a.devices, upto)
    requires a.settings.Some? ==> forall k :: upto <= k ==> a.settings.value.id != IdOf(k)
    ensures FreshFrom(WriteAggregate(t, accounts, a, fullSave, upto))
  {
    UpsertDevicesStayFresh(t.devices, a.devices, fullSave, upto);
    UpsertSettingsStayFresh(t.settings, a.settings, fullSave, upto);
  }

  /** Creating an account keeps every stored id out of the oracle's future. */
  lemma {:induction false} InsertAccountKeepsFresh(t: Tables, account: Account, fault: Option<Error>)
    requires FreshFrom(t) && NoFutureIds(account, t.serial)
    ensures FreshFrom(InsertAccount(t, account, fault).tables)
  {
    if fault.None? && !HasAccount(t.accounts, NewId(t, account)) && DistinctIds(Assigned(t, account).devices) {
      var a := Assigned(t, account);
      var next := NextSerial(t, account);
      var accounts := t.accounts + [AccountRow(a.id, a.userId)];
      AssignedFresh(t, account);
      assert AccountsFresh(accounts, next) by {
        assert forall i :: 0 <= i < |t.accounts| ==> accounts[i] == t.accounts[i];
      }
      FreshAfterWrite(t, accounts, a, false, next);
    }
  }

  /** Updating an account keeps every stored id out of the oracle's future. */
  lemma {:induction false} SaveAccountKeepsFresh(t: Tables, account: Account, fault: Option<Error>, reloadFault: Option<Error>)
    requires FreshFrom(t) && NoFutureIds(account, t.serial)
    ensures FreshFrom(SaveAccount(t, account, fault, reloadFault).tables)
  {
    if fault.None? && account.id != "" && AccountIndex(t.accounts, account.id).Some? && DistinctIds(Assigned(t, account).devices) {
      var i := AccountIndex(t.accounts, account.id).value;
      var a := Assigned(t, account);
      var next := NextSerial(t, account);
      var accounts := t.accounts[i := AccountRow(a.id, a.userId)];
      AssignedFresh(t, account);
      assert AccountsFresh(accounts, next) by {
        assert forall j :: 0 <= j < |t.accounts| ==> accounts[j].id == t.accounts[j].id;
      }
      FreshAfterWrite(t, accounts, a, true, next);
    }
  }

  // ---------------------------------------------------------------- writes seen by reads

  /** An update of an id that is empty or not stored is a failure, not `None`,
      and writes nothing. */
  lemma {:induction false} SaveUnknownAccountFails(t: Tables, account: Account, reloadFault: Option<Error>)
    requires !HasAccount(t.accounts, account.id)
    ensures SaveAccount(t, account, None, reloadFault).result.Failure?
    ensures SaveAccount(t, account, None, reloadFault).tables == t
  {
  }

  /** A successful update writes the account row with the given fields, zero
      values included, in place, and keeps every other account row; returns
      the aggregate reloaded by id, whose devices are all the stored devices of
      the account; stores the given settings as given and keeps every settings
      row with another id; and, the given devices having distinct ids, stores
      each of them as given (id filled in when empty) and keeps every device
      with another id. */
  lemma {:induction false} SaveAccountWrites(t: Tables, account: Account)
    requires SaveAccount(t, account, None, None).result.Success?
    ensures var s := SaveAccount(t, account, None, None);
      var a := s.result.value;
      && |s.tables.accounts| == |t.accounts|
      && AccountRow(account.id, account.userId) in s.tables.accounts
      && a.id == account.id && a.userId == account.userId
      && (exists i :: 0 <= i < |s.tables.accounts| && s.tables.accounts[i].id == account.id
                      && a == Hydrate(s.tables, s.tables.accounts[i]))
      && (forall d :: d in a.devices <==> d in s.tables.devices && d.accountId == account.id)
      && (Assigned(t, account).settings.Some? ==> Assigned(t, account).settings.value in s.tables.settings)
    ensures var s := SaveAccount(t, account, None, None);
      && (forall j :: 0 <= j < |t.accounts| && t.accounts[j].id != account.id ==> s.tables.accounts[j] == t.accounts[j])
      && (forall x :: x in t.settings && (Assigned(t, account).settings.None? || x.id != Assigned(t, account).settings.value.id)
            ==> x in s.tables.settings)
    ensures var s := SaveAccount(t, account, None, None);
      var ds := Assigned(t, account).devices;
      && DistinctIds(ds)
      && (forall d :: d in ds ==> d in s.tables.devices && d in s.result.value.devices)
      && (forall x :: x in t.devices && (forall d :: d in ds ==> d.id != x.id) ==> x in s.tables.devices)
  {
    var i := AccountIndex(t.accounts, account.id).value;
    var a := Assigned(t, account);
    var row := AccountRow(a.id, a.userId);
    var t' := WriteAggregate(t, t.accounts[i := row], a, true, NextSerial(t, account));
    assert SaveAccount(t, account, None, None) == Stored(Success(Hydrate(t', t'.accounts[i])), t');
    assert t'.accounts[i] == row;
    AssignedOwned(t, account);
    DevicesOfMembers(t'.devices, account.id);
    if a.settings.Some? {
      UpsertSettingsStores(t.settings, a.settings);
    }
    UpsertSettingsKeepsOthers(t.settings, a.settings, true);
    UpsertDevicesStores(t.devices, a.devices);
  }

  /** When the reload fails after the write, the update is stored although an
      error is returned. */
  lemma {:induction false} SaveThenReloadFailure(t: Tables, account: Account, reloadFault: Error)
    requires HasAccount(t.accounts, account.id) && account.id != ""
    ensures DistinctIds(Assigned(t, account).devices) ==>
      SaveAccount(t, account, None, Some(reloadFault)).result == Failure(reloadFault)
    ensures SaveAccount(t, account, None, Some(reloadFault)).tables == SaveAccount(t, account, None, None).tables
  {
  }

  /** Two devices bringing the same id make a create or an update fail,
      whatever else the aggregate holds, and nothing is written. */
  lemma DuplicateDevicesRejected(t: Tables, account: Account, i: nat, j: nat, reloadFault: Option<Error>)
    requires i < j < |account.devices| && account.devices[i].id != "" && account.devices[i].id == account.devices[j].id
    ensures InsertAccount(t, account, None).result.Failure? && InsertAccount(t, account, None).tables == t
    ensures SaveAccount(t, account, None, reloadFault).result.Failure? && SaveAccount(t, account, None, reloadFault).tables == t
  {
    AssignDevicesKeeps(account.devices, NewId(t, account), FirstDraw(t, account));
    assert !DistinctIds(Assigned(t, account).devices);
  }

  /** In a consistent store no device or settings row names an account id
      that is not stored. */
  lemma {:induction false} NothingOwnedBy(t: Tables, id: string)
    requires Consistent(t) && !HasAccount(t.accounts, id)
    ensures DevicesOf(t.devices, id) == []
    ensures SettingsOf(t.settings, id).None?
  {
    assert forall i :: 0 <= i < |t.devices| ==> HasAccount(t.accounts, t.devices[i].accountId);
    DevicesOfNone(t.devices, id);
    assert forall i :: 0 <= i < |t.settings| ==> HasAccount(t.accounts, t.settings[i].accountId);
    SettingsOfMembers(t.settings, id);
  }

  lemma {:induction false} DevicesOfNone(ds: seq<AccountDevice>, accountId: string)
    requires forall j :: 0 <= j < |ds| ==> ds[j].accountId != accountId
    ensures DevicesOf(ds, accountId) == []
    decreases |ds|
  {
    if ds != [] {
      DevicesOfNone(ds[..|ds| - 1], accountId);
    }
  }

  lemma {:induction false} DevicesOfAll(ds: seq<AccountDevice>, accountId: string)
    requires forall j :: 0 <= j < |ds| ==> ds[j].accountId == accountId
    ensures DevicesOf(ds, accountId) == ds
    decreases |ds|
  {
    if ds != [] {
      var init := ds[..|ds| - 1];
      DevicesOfAll(init, accountId);
      assert init + [ds[|ds| - 1]] == ds;
    }
  }

  /** An account created with no ids of its own, in a consistent store whose
      ids are fresh, is stored under the oracle's next id; loading it back by
      that id gives exactly the aggregate `Create` returned. */
  lemma {:induction false} InsertThenLoad(t: Tables, account: Account)
    requires Consistent(t) && FreshFrom(t)
    requires account.id == ""
    requires forall i :: 0 <= i < |account.devices| ==> account.devices[i].id == ""
    requires account.settings.Some? ==> account.settings.value.id == ""
    ensures var s := InsertAccount(t, account, None);
      && s.result.Success?
      && s.result.value.id == IdOf(t.serial)
      && LoadAccount(s.tables, GetAccountFilter(IdOf(t.serial), "")) == Some(s.result.value)
  {
    var id := IdOf(t.serial);
    InsertBlank(t, account);
    NothingOwnedBy(t, id);
    FreshLater(t, t.serial + 1);
    BlankAssigned(t, account);
    BlankLoad(t, account);
  }

  /** The tables an insert of an aggregate without ids writes load that
      aggregate back by its new id, when nothing stored yet holds or names
      that id or the draws after it. */
  lemma BlankLoad(t: Tables, account: Account)
    requires !HasAccount(t.accounts, IdOf(t.serial))
    requires DevicesOf(t.devices, IdOf(t.serial)) == [] && SettingsOf(t.settings, IdOf(t.serial)).None?
    requires DevicesFresh(t.devices, t.serial + 1) && SettingsFresh(t.settings, t.serial + 1)
    requires account.id == ""
    requires forall i :: 0 <= i < |account.devices| ==> account.devices[i].id == ""
    requires account.settings.Some? ==> account.settings.value.id == ""
    ensures LoadAccount(WriteAggregate(t, t.accounts + [AccountRow(IdOf(t.serial), account.userId)], Assigned(t, account), false, NextSerial(t, account)),
                        GetAccountFilter(IdOf(t.serial), ""))
         == Some(Assigned(t, account))
  {
    BlankAssigned(t, account);
    LoadInserted(t, Assigned(t, account), IdOf(t.serial), account.userId, t.serial + 1, NextSerial(t, account));
  }

  /** Ids fresh from one draw on are fresh from every later one. */
  lemma FreshLater(t: Tables, later: nat)
    requires FreshFrom(t) && t.serial <= later
    ensures DevicesFresh(t.devices, later) && SettingsFresh(t.settings, later)
  {
  }

  /** An account without an id takes a fresh one, so its insert succeeds. */
  lemma InsertBlank(t: Tables, account: Account)
    requires AccountsFresh(t.accounts, t.serial) && account.id == ""
    requires forall i :: 0 <= i < |account.devices| ==> account.devices[i].id == ""
    ensures !HasAccount(t.accounts, IdOf(t.serial))
    ensures InsertAccount(t, account, None)
         == Stored(Success(Assigned(t, account)),
                   WriteAggregate(t, t.accounts + [AccountRow(IdOf(t.serial), account.userId)], Assigned(t, account), false, NextSerial(t, account)))
  {
    assert forall i :: 0 <= i < |t.accounts| ==> t.accounts[i].id != IdOf(t.serial);
    BlankDistinct(t, account);
  }

  /** Devices that bring no id take distinct draws. */
  lemma BlankDistinct(t: Tables, account: Account)
    requires forall i :: 0 <= i < |account.devices| ==> account.devices[i].id == ""
    ensures DistinctIds(Assigned(t, account).devices)
  {
    var ds := Assigned(t, account).devices;
    AssignDevicesInOrder(account.devices, NewId(t, account), FirstDraw(t, account));
    forall i, j | 0 <= i < j < |ds| ensures ds[i].id != ds[j].id {
      IdOfInjective(FirstDraw(t, account) + i, FirstDraw(t, account) + j);
    }
  }

  /** An aggregate that brings no ids takes the oracle's draws in order: the
      account the first, its devices the next ones, its settings the last. */
  lemma BlankAssigned(t: Tables, account: Account)
    requires account.id == ""
    requires forall i :: 0 <= i < |account.devices| ==> account.devices[i].id == ""
    requires account.settings.Some? ==> account.settings.value.id == ""
    ensures Assigned(t, account).id == IdOf(t.serial) && Assigned(t, account).id != ""
    ensures forall j :: 0 <= j < |Assigned(t, account).devices| ==>
      Assigned(t, account).devices[j].id == IdOf(t.serial + 1 + j) && Assigned(t, account).devices[j].accountId == IdOf(t.serial)
    ensures Assigned(t, account).settings.Some? ==>
      && Assigned(t, account).settings.value.id == IdOf(t.serial + 1 + |Assigned(t, account).devices|)
      && Assigned(t, account).settings.value.accountId == IdOf(t.serial)
  {
    var id := IdOf(t.serial);
    AssignDevicesInOrder(account.devices, id, t.serial + 1);
  }

  /** Loading by id an account row appended with its fresh associations. */
  lemma {:induction false} LoadInserted(t: Tables, a: Account, id: string, userId: string, serial: nat, next: nat)
    requires a.id == id && a.userId == userId
    requires !HasAccount(t.accounts, id) && id != ""
    requires DevicesFresh(t.devices, serial) && SettingsFresh(t.settings, serial)
    requires forall j :: 0 <= j < |a.devices| ==> a.devices[j].id == IdOf(serial + j) && a.devices[j].accountId == id
    requires a.settings.Some? ==> a.settings.value.id == IdOf(serial + |a.devices|) && a.settings.value.accountId == id
    requires DevicesOf(t.devices, id) == [] && SettingsOf(t.settings, id).None?
    ensures LoadAccount(WriteAggregate(t, t.accounts + [AccountRow(id, userId)], a, false, next), GetAccountFilter(id, ""))
            == Some(a)
  {
    var row := AccountRow(id, userId);
    var t' := WriteAggregate(t, t.accounts + [row], a, false, next);
    LoadFreshDevices(t.devices, a.devices, id, serial);
    LoadFreshSettings(t.settings, a.settings, id, serial + |a.devices|);
    FirstMatchNewRow(t.accounts, row);
    assert Hydrate(t', row) == a;
  }

  /** Devices saved with fresh ids under an account that owns none come back
      from the preload exactly as saved. */
  lemma {:induction false} LoadFreshDevices(rows: seq<AccountDevice>, ds: seq<AccountDevice>, accountId: string, serial: nat)
    requires DevicesFresh(rows, serial)
    requires forall j :: 0 <= j < |ds| ==> ds[j].id == IdOf(serial + j) && ds[j].accountId == accountId
    requires DevicesOf(rows, accountId) == []
    ensures DevicesOf(UpsertDevices(rows, ds, false), accountId) == ds
  {
    assert DistinctIds(ds) by {
      forall i, j | 0 <= i < j < |ds| ensures ds[i].id != ds[j].id {
        IdOfInjective(serial + i, serial + j);
      }
    }
    assert IdsDisjoint(rows, ds) by {
      forall i, j | 0 <= i < |rows| && 0 <= j < |ds| ensures rows[i].id != ds[j].id {
        assert rows[i].id != IdOf(serial + j);
      }
    }
    UpsertNewDevices(rows, ds);
    DevicesOfAll(ds, accountId);
    DevicesOfAppend(rows, ds, accountId);
  }

  /** Settings saved with a fresh id under an account that owns none come back
      from the preload as saved. */
  lemma {:induction false} LoadFreshSettings(rows: seq<AccountSettings>, st: Option<AccountSettings>, accountId: string, serial: nat)
    requires SettingsFresh(rows, serial)
    requires st.Some? ==> st.value.id == IdOf(serial) && st.value.accountId == accountId
    requires SettingsOf(rows, accountId).None?
    ensures SettingsOf(UpsertSettings(rows, st, false), accountId) == st
  {
    if st.Some? {
      assert SettingsIndex(rows, st.value.id).None?;
      assert (rows + [st.value])[..|rows|] == rows;
    }
  }

  /** A row with a new id is the only one its id selects. */
  lemma {:induction false} FirstMatchNewRow(rows: seq<AccountRow>, row: AccountRow)
    requires !HasAccount(rows, row.id) && row.id != ""
    ensures FirstMatch(rows + [row], GetAccountFilter(row.id, "")) == Some(row)
  {
    var f := GetAccountFilter(row.id, "");
    assert forall i :: 0 <= i < |rows| ==> !Matches(rows[i], f);
    assert (rows + [row])[..|rows|] == rows;
  }

  lemma {:induction false} DevicesOfAppend(a: seq<AccountDevice>, b: seq<AccountDevice>, accountId: string)
    ensures DevicesOf(a + b, accountId) == DevicesOf(a, accountId) + DevicesOf(b, accountId)
    decreases |b|
  {
    if b != [] {
      var b' := b[..|b| - 1];
      assert (a + b)[..|a + b| - 1] == a + b';
      assert (a + b)[|a + b| - 1] == b[|b| - 1];
      DevicesOfAppend(a, b', accountId);
    } else {
      assert a + b == a;
    }
  }

  // ---------------------------------------------------------------- the store

  /** The in-memory account store. */
  class AccountStorage {
    var accounts: seq<AccountRow>
    var devices: seq<AccountDevice>
    var settings: seq<AccountSettings>
    var serial: nat

    constructor ()
      ensures Snapshot() == Tables([], [], [], 0)
    {
      accounts, devices, settings, serial := [], [], [], 0;
    }

    function Snapshot(): Tables
      reads this
    {
      Tables(accounts, devices, settings, serial)
    }

    method Restore(t: Tables)
      modifies this
      ensures Snapshot() == t
    {
      accounts, devices, settings, serial := t.accounts, t.devices, t.settings, t.serial;
    }

    /** `CreateAccount`. */
    method CreateAccount(account: Account, fault: Option<Error>) returns (r: Result<Account, Error>)
      modifies this
      ensures Stored(r, Snapshot()) == InsertAccount(old(Snapshot()), account, fault)
    {
      var s := InsertAccount(Snapshot(), account, fault);
      Restore(s.tables);
      r := s.result;
    }

    /** `GetAccount`: a store failure is returned as it is; no matching row is
        `None`, not an error. */
    method GetAccount(filter: GetAccountFilter, fault: Option<Error>) returns (r: Result<Option<Account>, Error>)
      ensures fault.Some? ==> r == Failure(fault.value)
      ensures fault.None? ==> r == Success(LoadAccount(Snapshot(), filter))
    {
      if fault.Some? {
        return Failure(fault.value);
      }
      r := Success(LoadAccount(Snapshot(), filter));
    }

    /** `UpdateAccount`. */
    method UpdateAccount(account: Account, fault: Option<Error>, reloadFault: Option<Error>) returns (r: Result<Account, Error>)
      modifies this
      ensures Stored(r, Snapshot()) == SaveAccount(old(Snapshot()), account, fault, reloadFault)
    {
      var s := SaveAccount(Snapshot(), account, fault, reloadFault);
      Restore(s.tables);
      r := s.result;
    }
  }
}
