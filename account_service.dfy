/** The account service of internal/service/account.go: creating an account
    for a stored user and reading an account back, over the two stores. */
module AccountServices {
  import opened Wrappers
  import opened Errs
  import opened Ids
  import opened Entity
  import UserStore
  import opened AccountStore

  const ErrCreateAccountUserNotFound: Err := New("user not found", "user_not_found")
  const ErrGetAccountAccountNotFound: Err := New("account not found", "account_not_found")

  /** The `fmt.Errorf` contexts the service wraps foreign errors in. */
  const GetUserContext: string := "failed to get user: "
  const CreateAccountContext: string := "failed to create account: "
  const GetAccountContext: string := "failed to get account: "

  datatype CreateAccountOptions = CreateAccountOptions(
    userId: string, deviceName: string, deviceOs: string, deviceMacAddress: string, active: bool, accountLanguage: string)
  datatype CreateAccountOutput = CreateAccountOutput(id: string, userId: string)
  datatype GetAccountOptions = GetAccountOptions(accountId: string)

  /** The only selector `CreateAccount` looks its user up by. */
  function ById(userId: string): UserStore.GetUserFilter
  {
    UserStore.GetUserFilter("", userId)
  }

  /** The aggregate `CreateAccount` builds for the user it found: no ids, one
      device from the options, and settings holding the language. */
  function NewAggregate(user: User, opt: CreateAccountOptions): Account
  {
    Account("", user.id,
            [AccountDevice("", "", opt.deviceName, opt.deviceOs, opt.deviceMacAddress, opt.active)],
            Some(AccountSettings("", "", opt.accountLanguage)))
  }

  /** The outcome of `CreateAccount`: its result and the account store afterwards. */
  datatype CreatedAccount = CreatedAccount(result: Result<CreateAccountOutput, Error>, tables: Tables)

  /** `CreateAccount` on the user table `users` and the account store `t`;
      `getFault` and `createFault` are failures of the two store calls. */
  function CreateAccountOn(users: seq<User>, t: Tables, opt: CreateAccountOptions,
                           getFault: Option<Error>, createFault: Option<Error>): CreatedAccount
  {
    if getFault.Some? then CreatedAccount(Failure(Wrapped(GetUserContext, getFault.value)), t)
    else
      match UserStore.FirstMatch(users, ById(opt.userId))
      case None => CreatedAccount(Failure(Expected(ErrCreateAccountUserNotFound)), t)
      case Some(user) =>
        var s := InsertAccount(t, NewAggregate(user, opt), createFault);
        match s.result
        case Failure(e) => CreatedAccount(Failure(Wrapped(CreateAccountContext, e)), s.tables)
        case Success(a) => CreatedAccount(Success(CreateAccountOutput(a.id, a.userId)), s.tables)
  }

  /** `GetAccount` on the account store `t`; `fault` is a failure of the lookup. */
  function GetAccountOn(t: Tables, opt: GetAccountOptions, fault: Option<Error>): Result<Account, Error>
  {
    if fault.Some? then Failure(Wrapped(GetAccountContext, fault.value))
    else
      match LoadAccount(t, GetAccountFilter(opt.accountId, ""))
      case None => Failure(Expected(ErrGetAccountAccountNotFound))
      case Some(a) => Success(a)
  }

  /** Every account row names a stored user. */
  predicate UsersOwnAccounts(users: seq<User>, accounts: seq<AccountRow>)
  {
    forall i :: 0 <= i < |accounts| ==> UserStore.HasId(users, accounts[i].userId)
  }

  // ---------------------------------------------------------------- creating

  /** How `CreateAccount` fails.  A failure leaves the account store as it
      was.  No user with the id (any user at all when the id is empty) is
      exactly `user_not_found`, the only expected error; store failures come
      back wrapped. */
  lemma CreateAccountFailures(users: seq<User>, t: Tables, opt: CreateAccountOptions,
                              getFault: Option<Error>, createFault: Option<Error>)
    ensures var c := CreateAccountOn(users, t, opt, getFault, createFault);
      && (c.result.Failure? ==> c.tables == t)
      && (getFault.Some? ==> c.result == Failure(Wrapped(GetUserContext, getFault.value)))
      && (c.result == Failure(Expected(ErrCreateAccountUserNotFound)) <==>
            getFault.None? && forall i :: 0 <= i < |users| ==> opt.userId != "" && users[i].id != opt.userId)
      && (c.result.Failure? && IsExpected(c.result.error) ==> c.result.error == Expected(ErrCreateAccountUserNotFound))
      && (getFault.None? && createFault.Some? && c.result.Failure? && !IsExpected(c.result.error) ==>
            c.result == Failure(Wrapped(CreateAccountContext, createFault.value)))
  {
  }

  /** A successful `CreateAccount` creates the account under the oracle's
      next id for a stored user with the given id (the first user in key order
      when the id is empty), and returns that id and the user's. */
  lemma CreateAccountSucceeds(users: seq<User>, t: Tables, opt: CreateAccountOptions,
                              getFault: Option<Error>, createFault: Option<Error>)
    requires CreateAccountOn(users, t, opt, getFault, createFault).result.Success?
    ensures var c := CreateAccountOn(users, t, opt, getFault, createFault);
      var m := UserStore.FirstMatch(users, ById(opt.userId));
      && getFault.None? && createFault.None?
      && m.Some? && m.value in users && (opt.userId != "" ==> m.value.id == opt.userId)
      && c.result.value == CreateAccountOutput(IdOf(t.serial), m.value.id)
      && c.tables == InsertAccount(t, NewAggregate(m.value, opt), None).tables
  {
    var m := UserStore.FirstMatch(users, ById(opt.userId));
    var agg := NewAggregate(m.value, opt);
    assert InsertAccount(t, agg, createFault).result.value == Assigned(t, agg);
  }

  /** Creating an account keeps the store's keys and foreign keys, keeps its
      ids out of the oracle's future, and creates accounts only for stored
      users. */
  lemma CreateAccountKeepsInvariants(users: seq<User>, t: Tables, opt: CreateAccountOptions,
                                     getFault: Option<Error>, createFault: Option<Error>)
    requires Consistent(t) && FreshFrom(t) && UsersOwnAccounts(users, t.accounts)
    ensures var c := CreateAccountOn(users, t, opt, getFault, createFault);
      Consistent(c.tables) && FreshFrom(c.tables) && UsersOwnAccounts(users, c.tables.accounts)
  {
    var c := CreateAccountOn(users, t, opt, getFault, createFault);
    if getFault.None? && UserStore.FirstMatch(users, ById(opt.userId)).Some? {
      var user := UserStore.FirstMatch(users, ById(opt.userId)).value;
      var agg := NewAggregate(user, opt);
      InsertAccountKeepsConsistent(t, agg, createFault);
      InsertAccountKeepsFresh(t, agg, createFault);
      if c.result.Success? {
        var a := Assigned(t, agg);
        assert c.tables.accounts == t.accounts + [AccountRow(a.id, a.userId)];
        var j :| 0 <= j < |users| && users[j] == user;
        assert UserStore.HasId(users, user.id) by { assert users[j].id == user.id; }
      }
    }
  }

  /** The ids a create draws for the aggregate it builds: the account, its
      device and its settings take the oracle's next three draws. */
  lemma NewAggregateAssigned(t: Tables, user: User, opt: CreateAccountOptions)
    ensures Assigned(t, NewAggregate(user, opt)) == Account(
      IdOf(t.serial), user.id,
      [AccountDevice(IdOf(t.serial + 1), IdOf(t.serial), opt.deviceName, opt.deviceOs, opt.deviceMacAddress, opt.active)],
      Some(AccountSettings(IdOf(t.serial + 2), IdOf(t.serial), opt.accountLanguage)))
  {
    var agg := NewAggregate(user, opt);
    var id := IdOf(t.serial);
    assert AssignDevices(agg.devices, id, t.serial + 1) == [AssignDevice(agg.devices[0], id, t.serial + 1)] by {
      assert agg.devices[1..] == [];
    }
    assert Blanks(agg.devices) == 1 by {
      assert agg.devices[1..] == [];
    }
  }

  /** Creating then getting: in a consistent store whose ids are fresh, the
      account a successful `CreateAccount` reports is found by its id, with the
      found user's id, exactly one device carrying the options' fields, and
      settings carrying the language, even an empty one. */
  lemma CreateThenGet(users: seq<User>, t: Tables, opt: CreateAccountOptions)
    requires Consistent(t) && FreshFrom(t)
    requires CreateAccountOn(users, t, opt, None, None).result.Success?
    ensures var c := CreateAccountOn(users, t, opt, None, None);
      var out := c.result.value;
      GetAccountOn(c.tables, GetAccountOptions(out.id), None) == Success(Account(
        out.id, out.userId,
        [AccountDevice(IdOf(t.serial + 1), out.id, opt.deviceName, opt.deviceOs, opt.deviceMacAddress, opt.active)],
        Some(AccountSettings(IdOf(t.serial + 2), out.id, opt.accountLanguage))))
  {
    var user := UserStore.FirstMatch(users, ById(opt.userId)).value;
    var agg := NewAggregate(user, opt);
    var s := InsertAccount(t, agg, None);
    InsertThenLoad(t, agg);
    NewAggregateAssigned(t, user, opt);
    assert s.result == Success(Assigned(t, agg));
    assert CreateAccountOn(users, t, opt, None, None)
        == CreatedAccount(Success(CreateAccountOutput(IdOf(t.serial), user.id)), s.tables);
  }

  // ---------------------------------------------------------------- getting

  /** Every way `GetAccount` ends: a lookup failure wrapped (so unexpected);
      no account with the id (any account at all when the id is empty) is
      `account_not_found`; otherwise the stored aggregate, unchanged: the row
      with that id (the first in key order when the id is empty), all of its
      devices and its settings. */
  lemma GetAccountCases(t: Tables, opt: GetAccountOptions, fault: Option<Error>)
    ensures var r := GetAccountOn(t, opt, fault);
      && (fault.Some? ==> r == Failure(Wrapped(GetAccountContext, fault.value)) && !IsExpected(r.error))
      && (r == Failure(Expected(ErrGetAccountAccountNotFound)) <==>
            fault.None? && forall i :: 0 <= i < |t.accounts| ==> opt.accountId != "" && t.accounts[i].id != opt.accountId)
      && (r.Success? <==> fault.None? && exists i :: 0 <= i < |t.accounts| && (opt.accountId == "" || t.accounts[i].id == opt.accountId))
    ensures var r := GetAccountOn(t, opt, fault);
      r.Success? ==>
        && (opt.accountId != "" ==> r.value.id == opt.accountId)
        && (exists i :: 0 <= i < |t.accounts| && t.accounts[i] == AccountRow(r.value.id, r.value.userId))
        && (forall i :: 0 <= i < |t.accounts| ==> opt.accountId != "" || LexLe(r.value.id, t.accounts[i].id))
        && (forall d :: d in r.value.devices <==> d in t.devices && d.accountId == r.value.id)
        && (r.value.settings.Some? ==> r.value.settings.value in t.settings && r.value.settings.value.accountId == r.value.id)
        && (r.value.settings.None? <==> forall i :: 0 <= i < |t.settings| ==> t.settings[i].accountId != r.value.id)
  {
    var f := GetAccountFilter(opt.accountId, "");
    LoadAccountSpec(t, f);
    var r := GetAccountOn(t, opt, fault);
    if r.Success? {
      var i :| 0 <= i < |t.accounts| && Matches(t.accounts[i], f)
               && r.value.id == t.accounts[i].id && r.value.userId == t.accounts[i].userId;
      assert t.accounts[i] == AccountRow(r.value.id, r.value.userId);
    }
  }

  // ---------------------------------------------------------------- the service

  /** `accountService`: the two stores it shares. */
  class AccountService {
    const users: UserStore.UserStorage
    const accounts: AccountStorage

    constructor (users: UserStore.UserStorage, accounts: AccountStorage)
      ensures this.users == users && this.accounts == accounts
    {
      this.users := users;
      this.accounts := accounts;
    }

    /** `CreateAccount`. */
    method CreateAccount(opt: CreateAccountOptions, getFault: Option<Error>, createFault: Option<Error>)
      returns (r: Result<CreateAccountOutput, Error>)
      modifies accounts
      ensures CreatedAccount(r, accounts.Snapshot()) == CreateAccountOn(users.rows, old(accounts.Snapshot()), opt, getFault, createFault)
    {
      var found := users.GetUser(ById(opt.userId), getFault);
      if found.Failure? {
        return Failure(Wrapped(GetUserContext, found.error));
      }
      if found.value.None? {
        return Failure(Expected(ErrCreateAccountUserNotFound));
      }
      var user := found.value.value;
      var created := accounts.CreateAccount(NewAggregate(user, opt), createFault);
      if created.Failure? {
        return Failure(Wrapped(CreateAccountContext, created.error));
      }
      return Success(CreateAccountOutput(created.value.id, created.value.userId));
    }

    /** `GetAccount`. */
    method GetAccount(opt: GetAccountOptions, fault: Option<Error>) returns (r: Result<Account, Error>)
      ensures r == GetAccountOn(accounts.Snapshot(), opt, fault)
    {
      var found := accounts.GetAccount(GetAccountFilter(opt.accountId, ""), fault);
      if found.Failure? {
        return Failure(Wrapped(GetAccountContext, found.error));
      }
      if found.value.None? {
        return Failure(Expected(ErrGetAccountAccountNotFound));
      }
      return Success(found.value.value);
    }
  }
}
