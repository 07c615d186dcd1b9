/** The authentication service of internal/service/auth.go: sign-up and
    sign-in over the user store, the password hasher and the token authority. */
module AuthServices {
  import opened Wrappers
  import opened Errs
  import opened Entity
  import opened Hashing
  import opened Auth
  import opened UserStore
  import opened Ids

  const ErrSignUpUserAlreadyCreated: Err := New("user already created", "user_already_created")
  const ErrSignInUserNotFound: Err := New("user not found", "user_not_found")
  const ErrSignInWrongPassword: Err := New("wrong password", "wrong_password")

  /** The `fmt.Errorf` contexts the service wraps foreign errors in. */
  const GetUserContext: string := "failed to get user: "
  const HashContext: string := "failed to hash user: "
  const CreateUserContext: string := "failed to create user: "

  datatype SignInOptions = SignInOptions(email: string, password: string)
  datatype SignInOutput = SignInOutput(accessToken: Jws)
  datatype SignUpOptions = SignUpOptions(username: string, email: string, password: string, macAddress: string)
  datatype SignUpOutput = SignUpOutput(id: string, accountId: string, username: string, email: string, accessToken: Jws)

  /** The only selector both operations look users up by. */
  function ByEmail(email: string): GetUserFilter
  {
    GetUserFilter(email, "")
  }

  /** The claims a token is minted with for a stored user. */
  function ClaimsFor(u: User): GenerateTokenClaimsOptions
  {
    GenerateTokenClaimsOptions(u.id, u.username)
  }

  /** `SignIn` on the user table `rows`; `fault` is a failure of the lookup,
      `now` and `jti` the clock and the token id the minting draws. */
  function SignInOn(rows: seq<User>, h: Hasher, a: Authenticator, opt: SignInOptions, fault: Option<Error>, now: int, jti: string)
    : Result<SignInOutput, Error>
  {
    if fault.Some? then Failure(Wrapped(GetUserContext, fault.value))
    else
      match FirstMatch(rows, ByEmail(opt.email))
      case None => Failure(Expected(ErrSignInUserNotFound))
      case Some(user) =>
        if h.compare(user.password, opt.password).Some? then Failure(Expected(ErrSignInWrongPassword))
        else Success(SignInOutput(GenerateToken(a, ClaimsFor(user), now, jti)))
  }

  /** The outcome of a sign-up: its result and the user table afterwards. */
  datatype SignedUp = SignedUp(result: Result<SignUpOutput, Error>, rows: seq<User>, serial: nat)

  /** `SignUp` on the user table `rows` with id oracle `serial`; `getFault` and
      `createFault` are failures of the lookup and of the insert. */
  function SignUpOn(rows: seq<User>, serial: nat, h: Hasher, a: Authenticator, opt: SignUpOptions,
                    getFault: Option<Error>, createFault: Option<Error>, now: int, jti: string): SignedUp
  {
    if getFault.Some? then SignedUp(Failure(Wrapped(GetUserContext, getFault.value)), rows, serial)
    else if FirstMatch(rows, ByEmail(opt.email)).Some? then SignedUp(Failure(Expected(ErrSignUpUserAlreadyCreated)), rows, serial)
    else
      match h.generate(opt.password)
      case Failure(e) => SignedUp(Failure(Wrapped(HashContext, e)), rows, serial)
      case Success(digest) =>
        var c := InsertUser(rows, serial, User("", opt.username, opt.email, digest), createFault);
        match c.result
        case Failure(e) => SignedUp(Failure(Wrapped(CreateUserContext, e)), c.rows, c.serial)
        case Success(u) =>
          SignedUp(Success(SignUpOutput(u.id, "", u.username, u.email, GenerateToken(a, ClaimsFor(u), now, jti))), c.rows, c.serial)
  }

  // ---------------------------------------------------------------- sign-in

  /** Every way a sign-in ends: a lookup failure wrapped (so unexpected); no
      user with the email (any user at all when the email is empty) is
      `user_not_found`; a password the stored digest rejects is
      `wrong_password`; otherwise a token minted for the user found, which is
      stored and has the email. */
  lemma SignInCases(rows: seq<User>, h: Hasher, a: Authenticator, opt: SignInOptions, fault: Option<Error>, now: int, jti: string)
    ensures var r := SignInOn(rows, h, a, opt, fault, now, jti);
      var m := FirstMatch(rows, ByEmail(opt.email));
      && (fault.Some? ==> r == Failure(Wrapped(GetUserContext, fault.value)) && !IsExpected(r.error) && GetCode(r.error) == "")
      && (r == Failure(Expected(ErrSignInUserNotFound)) <==>
            fault.None? && forall i :: 0 <= i < |rows| ==> opt.email != "" && rows[i].email != opt.email)
      && (r == Failure(Expected(ErrSignInWrongPassword)) <==>
            fault.None? && m.Some? && h.compare(m.value.password, opt.password).Some?)
      && (r.Success? ==>
            && m.Some? && m.value in rows && (opt.email != "" ==> m.value.email == opt.email)
            && h.compare(m.value.password, opt.password).None?
            && r.value.accessToken == GenerateToken(a, ClaimsFor(m.value), now, jti))
  {
  }

  /** A token handed out by a sign-in parses back, inside its validity
      window, to the id and name of a stored user with the given email. */
  lemma SignInTokenParses(rows: seq<User>, h: Hasher, a: Authenticator, opt: SignInOptions, now: int, jti: string, t: int)
    requires SignInOn(rows, h, a, opt, None, now, jti).Success?
    requires now <= t < now + TokenLifetime
    ensures exists u :: (
      && u in rows && (opt.email != "" ==> u.email == opt.email)
      && ParseToken(a, SignInOn(rows, h, a, opt, None, now, jti).value.accessToken, t) == Success(ParseTokenClaimsOutput(u.id, u.username)))
  {
    var u := FirstMatch(rows, ByEmail(opt.email)).value;
    MintThenParse(a, ClaimsFor(u), now, jti, t);
  }

  // ---------------------------------------------------------------- sign-up

  /** Every way a sign-up ends.  A failure leaves the table as it was.  The
      email taken (any user at all when it is empty) is exactly
      `user_already_created`, the only expected error.  A success stores one
      user with the new id, the name, the email and the digest of the password,
      never the password itself, and echoes it with an empty account id and a
      token minted for it. */
  lemma SignUpCases(rows: seq<User>, serial: nat, h: Hasher, a: Authenticator, opt: SignUpOptions,
                    getFault: Option<Error>, createFault: Option<Error>, now: int, jti: string)
    ensures var s := SignUpOn(rows, serial, h, a, opt, getFault, createFault, now, jti);
      && (s.result.Failure? ==> s.rows == rows && s.serial == serial)
      && (s.result == Failure(Expected(ErrSignUpUserAlreadyCreated)) <==>
            getFault.None? && exists i :: 0 <= i < |rows| && (opt.email == "" || rows[i].email == opt.email))
      && (s.result.Failure? && IsExpected(s.result.error) ==> s.result.error == Expected(ErrSignUpUserAlreadyCreated))
      && (s.result.Success? <==>
            && getFault.None? && (forall i :: 0 <= i < |rows| ==> opt.email != "" && rows[i].email != opt.email)
            && h.generate(opt.password).Success? && createFault.None? && !HasId(rows, IdOf(serial)))
    ensures var s := SignUpOn(rows, serial, h, a, opt, getFault, createFault, now, jti);
      s.result.Success? ==>
        var out := s.result.value;
        && out.id == IdOf(serial) && s.serial == serial + 1
        && s.rows == rows + [User(out.id, opt.username, opt.email, h.generate(opt.password).value)]
        && out.accountId == "" && out.username == opt.username && out.email == opt.email
        && out.accessToken == GenerateToken(a, GenerateTokenClaimsOptions(out.id, opt.username), now, jti)
  {
    var s := SignUpOn(rows, serial, h, a, opt, getFault, createFault, now, jti);
    if getFault.None? && FirstMatch(rows, ByEmail(opt.email)).None? && h.generate(opt.password).Success? {
      InsertUserShape(rows, serial, User("", opt.username, opt.email, h.generate(opt.password).value), createFault);
    }
    if s.result.Failure? && IsExpected(s.result.error) {
      assert getFault.None? && FirstMatch(rows, ByEmail(opt.email)).Some?;
    }
  }

  /** Sign-up only ever stores a user whose email no stored user has, so a
      run of sign-ups keeps emails unique although the schema does not; it
      keeps the primary key unique and the oracle ahead of the table too. */
  lemma {:induction false} SignUpKeepsInvariants(rows: seq<User>, serial: nat, h: Hasher, a: Authenticator, opt: SignUpOptions,
                                                 getFault: Option<Error>, createFault: Option<Error>, now: int, jti: string)
    requires EmailsUnique(rows) && IdsUnique(rows) && FreshFrom(rows, serial)
    ensures var s := SignUpOn(rows, serial, h, a, opt, getFault, createFault, now, jti);
      EmailsUnique(s.rows) && IdsUnique(s.rows) && FreshFrom(s.rows, s.serial)
  {
    var s := SignUpOn(rows, serial, h, a, opt, getFault, createFault, now, jti);
    SignUpCases(rows, serial, h, a, opt, getFault, createFault, now, jti);
    if s.result.Success? {
      var u := User(IdOf(serial), opt.username, opt.email, h.generate(opt.password).value);
      InsertUserKeepsKeys(rows, serial, u.(id := ""), None);
      assert InsertUser(rows, serial, u.(id := ""), None).rows == s.rows;
      forall i, j | 0 <= i < j < |s.rows| ensures s.rows[i].email != s.rows[j].email {
        if j == |rows| {
          assert s.rows[i] == rows[i];
        }
      }
    }
  }

  /** The round trip of the service: with a sound hasher, after a sign-up with
      email `e` and password `p` in a table whose emails are unique, signing in
      with `e` and `p` gives a token for the new user that parses back to its
      id and name, and signing in with `e` and any other password is
      `wrong_password`. */
  lemma SignUpThenSignIn(rows: seq<User>, serial: nat, h: Hasher, a: Authenticator, opt: SignUpOptions,
                         now: int, jti: string, later: int, jti2: string, t: int, other: string)
    requires Sound(h)
    requires SignUpOn(rows, serial, h, a, opt, None, None, now, jti).result.Success?
    requires later <= t < later + TokenLifetime
    requires other != opt.password
    ensures var s := SignUpOn(rows, serial, h, a, opt, None, None, now, jti);
      var id := s.result.value.id;
      var r := SignInOn(s.rows, h, a, SignInOptions(opt.email, opt.password), None, later, jti2);
      && r == Success(SignInOutput(GenerateToken(a, GenerateTokenClaimsOptions(id, opt.username), later, jti2)))
      && ParseToken(a, r.value.accessToken, t) == Success(ParseTokenClaimsOutput(id, opt.username))
      && SignInOn(s.rows, h, a, SignInOptions(opt.email, other), None, later, jti2) == Failure(Expected(ErrSignInWrongPassword))
  {
    var s := SignUpOn(rows, serial, h, a, opt, None, None, now, jti);
    SignUpCases(rows, serial, h, a, opt, None, None, now, jti);
    var u := s.rows[|rows|];
    var f := ByEmail(opt.email);
    assert s.rows == rows + [u];
    assert FirstMatch(s.rows, f) == Some(u) by {
      assert forall i :: 0 <= i < |rows| ==> !Matches(rows[i], f);
      assert s.rows[..|rows|] == rows;
    }
    MintThenParse(a, ClaimsFor(u), later, jti2, t);
  }

  // ---------------------------------------------------------------- the service

  /** `authService`: the user store it shares, the hasher and the authenticator. */
  class AuthService {
    const users: UserStorage
    const hasher: Hasher
    const authenticator: Authenticator

    constructor (users: UserStorage, hasher: Hasher, authenticator: Authenticator)
      ensures this.users == users && this.hasher == hasher && this.authenticator == authenticator
    {
      this.users := users;
      this.hasher := hasher;
      this.authenticator := authenticator;
    }

    /** `SignIn`. */
    method SignIn(opt: SignInOptions, fault: Option<Error>, now: int, jti: string) returns (r: Result<SignInOutput, Error>)
      ensures r == SignInOn(users.rows, hasher, authenticator, opt, fault, now, jti)
    {
      var found := users.GetUser(ByEmail(opt.email), fault);
      if found.Failure? {
        return Failure(Wrapped(GetUserContext, found.error));
      }
      if found.value.None? {
        return Failure(Expected(ErrSignInUserNotFound));
      }
      var user := found.value.value;
      var mismatch := hasher.compare(user.password, opt.password);
      if mismatch.Some? {
        return Failure(Expected(ErrSignInWrongPassword));
      }
      var token := GenerateToken(authenticator, ClaimsFor(user), now, jti);
      return Success(SignInOutput(token));
    }

    /** `SignUp`. */
    method SignUp(opt: SignUpOptions, getFault: Option<Error>, createFault: Option<Error>, now: int, jti: string)
      returns (r: Result<SignUpOutput, Error>)
      modifies users
      ensures SignedUp(r, users.rows, users.serial)
           == SignUpOn(old(users.rows), old(users.serial), hasher, authenticator, opt, getFault, createFault, now, jti)
    {
      var found := users.GetUser(ByEmail(opt.email), getFault);
      if found.Failure? {
        return Failure(Wrapped(GetUserContext, found.error));
      }
      if found.value.Some? {
        return Failure(Expected(ErrSignUpUserAlreadyCreated));
      }
      var hashed := hasher.generate(opt.password);
      if hashed.Failure? {
        return Failure(Wrapped(HashContext, hashed.error));
      }
      var created := users.CreateUser(User("", opt.username, opt.email, hashed.value), createFault);
      if created.Failure? {
        return Failure(Wrapped(CreateUserContext, created.error));
      }
      var u := created.value;
      var token := GenerateToken(authenticator, ClaimsFor(u), now, jti);
      return Success(SignUpOutput(u.id, "", u.username, u.email, token));
    }
  }
}
