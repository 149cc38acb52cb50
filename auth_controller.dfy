/**
 * The authentication controller of src/controllers/authController.js: registration,
 * login and logout over the users collection and the session slot.
 */
module AuthController {
  import opened Wrappers
  import opened Text
  import opened Validators
  import opened UserModel
  import opened Storage

  const FillAllMessage: string := "Preencha todos os campos."
  const InvalidEmailMessage: string := "E-mail invalido."
  const ShortPasswordMessage: string := "A senha deve ter pelo menos 4 caracteres."
  const DuplicateMessage: string := "Ja existe um usuario com este e-mail."
  const MissingCredentialsMessage: string := "Informe e-mail e senha."
  const BadCredentialsMessage: string := "Usuario ou senha incorretos."

  /** `users.find((u) => u.email === email)`. */
  function FindByEmail(users: seq<User>, email: string): (r: Option<User>)
    ensures r.None? <==> forall i :: 0 <= i < |users| ==> users[i].email != email
    ensures r.Some? ==> r.value in users && r.value.email == email
  {
    if users == [] then None
    else if users[0].email == email then Some(users[0])
    else FindByEmail(users[1..], email)
  }

  /** The first stored user with exactly this e-mail and this password, if any. */
  function FindByCredentials(users: seq<User>, email: string, password: string): (r: Option<User>)
    ensures r.None? <==> forall i :: 0 <= i < |users| ==> !(users[i].email == email && users[i].password == password)
    ensures r.Some? ==>
      exists k :: 0 <= k < |users| && users[k] == r.value
        && r.value.email == email && r.value.password == password
        && forall j :: 0 <= j < k ==> !(users[j].email == email && users[j].password == password)
  {
    if users == [] then None
    else if users[0].email == email && users[0].password == password then Some(users[0])
    else
      var r := FindByCredentials(users[1..], email, password);
      assert r.Some? ==>
        exists k :: 1 <= k < |users| && users[k] == r.value
          && forall j :: 0 <= j < k ==> !(users[j].email == email && users[j].password == password) by {
        if r.Some? {
          var k :| 0 <= k < |users[1..]| && users[1..][k] == r.value
            && forall j :: 0 <= j < k ==> !(users[1..][j].email == email && users[1..][j].password == password);
          assert users[k + 1] == r.value;
          forall j | 0 <= j < k + 1
            ensures !(users[j].email == email && users[j].password == password)
          {
            if j > 0 {
              assert users[j] == users[1..][j - 1];
            }
          }
        }
      }
      r
  }

  /** The fields `registerUser` requires. */
  function RegisterFields(payload: UserPayload): seq<Option<string>>
  {
    [payload.name, payload.email, payload.password]
  }

  /**
   * What `registerUser` decides over the stored users: the first failing check in
   * the order required fields, e-mail shape, password length, duplicate e-mail; or
   * the new client account.
   */
  function RegisterOutcome(users: seq<User>, payload: UserPayload, freshId: string): Result<User>
  {
    if !RequiredFieldsFilled(RegisterFields(payload)) then Err(FillAllMessage)
    else if !IsValidEmail(payload.email) then Err(InvalidEmailMessage)
    else if |OrEmpty(payload.password)| < 4 then Err(ShortPasswordMessage)
    else if FindByEmail(users, Lower(payload.email.value)).Some? then Err(DuplicateMessage)
    else Ok(CreateUser(payload.(userType := Some(Client)), freshId))
  }

  /**
   * The whole of `registerUser`'s decision in one statement: it only bundles
   * RegisterOutcomeOrder (the refusals, in order) and RegisterOutcomeAccount (the
   * account a success yields), so that callers need a single lemma.
   */
  lemma RegisterOutcomeSpec(users: seq<User>, payload: UserPayload, freshId: string)
    ensures var r := RegisterOutcome(users, payload, freshId);
      && (r == Err(FillAllMessage) <==> !RequiredFieldsFilled(RegisterFields(payload)))
      && (r == Err(InvalidEmailMessage) <==>
            RequiredFieldsFilled(RegisterFields(payload)) && !IsValidEmail(payload.email))
      && (r == Err(ShortPasswordMessage) <==>
            RequiredFieldsFilled(RegisterFields(payload)) && IsValidEmail(payload.email)
            && |OrEmpty(payload.password)| < 4)
      && (r == Err(DuplicateMessage) <==>
            RequiredFieldsFilled(RegisterFields(payload)) && IsValidEmail(payload.email)
            && |OrEmpty(payload.password)| >= 4
            && exists i :: 0 <= i < |users| && users[i].email == Lower(payload.email.value))
    ensures var r := RegisterOutcome(users, payload, freshId);
      r.Ok? ==>
        && payload.email.Some?
        && r.value == User(freshId, NameField(payload.name), Lower(payload.email.value), OrEmpty(payload.password), Client)
        && (forall i :: 0 <= i < |users| ==> users[i].email != r.value.email)
  {
    RegisterOutcomeOrder(users, payload, freshId);
    if RegisterOutcome(users, payload, freshId).Ok? {
      RegisterOutcomeAccount(users, payload, freshId);
    }
  }

  /** The four refusals of `registerUser`, each exactly when the earlier checks passed and its own failed. */
  lemma RegisterOutcomeOrder(users: seq<User>, payload: UserPayload, freshId: string)
    ensures var r := RegisterOutcome(users, payload, freshId);
      && (r == Err(FillAllMessage) <==> !RequiredFieldsFilled(RegisterFields(payload)))
      && (r == Err(InvalidEmailMessage) <==>
            RequiredFieldsFilled(RegisterFields(payload)) && !IsValidEmail(payload.email))
      && (r == Err(ShortPasswordMessage) <==>
            RequiredFieldsFilled(RegisterFields(payload)) && IsValidEmail(payload.email)
            && |OrEmpty(payload.password)| < 4)
      && (r == Err(DuplicateMessage) <==>
            RequiredFieldsFilled(RegisterFields(payload)) && IsValidEmail(payload.email)
            && |OrEmpty(payload.password)| >= 4
            && exists i :: 0 <= i < |users| && users[i].email == Lower(payload.email.value))
  {
    var r := RegisterOutcome(users, payload, freshId);
    assert FillAllMessage != InvalidEmailMessage && FillAllMessage != ShortPasswordMessage
      && FillAllMessage != DuplicateMessage && InvalidEmailMessage != ShortPasswordMessage
      && InvalidEmailMessage != DuplicateMessage && ShortPasswordMessage != DuplicateMessage;
    if !RequiredFieldsFilled(RegisterFields(payload)) {
      assert r == Err(FillAllMessage);
    } else if !IsValidEmail(payload.email) {
      assert r == Err(InvalidEmailMessage);
    } else if |OrEmpty(payload.password)| < 4 {
      assert r == Err(ShortPasswordMessage);
    } else {
      var found := FindByEmail(users, Lower(payload.email.value));
      if found.Some? {
        assert r == Err(DuplicateMessage);
        assert found.value in users;
      } else {
        assert r.Ok?;
      }
    }
  }

  /** A successful registration is a client account with the lower-cased e-mail, which no stored user has. */
  lemma RegisterOutcomeAccount(users: seq<User>, payload: UserPayload, freshId: string)
    requires RegisterOutcome(users, payload, freshId).Ok?
    ensures payload.email.Some?
    ensures RegisterOutcome(users, payload, freshId).value
      == User(freshId, NameField(payload.name), Lower(payload.email.value), OrEmpty(payload.password), Client)
    ensures forall i :: 0 <= i < |users| ==> users[i].email != Lower(payload.email.value)
  {
    RegisterPassed(users, payload, freshId);
    var e := payload.email.value;
    var p := payload.(userType := Some(Client));
    ValidEmailField(e);
    assert p.email == Some(e);
    var none := FindByEmail(users, Lower(e));
    assert none.None?;
  }

  /** A registration that succeeds passed every check, and its value is the client account `createUser` builds. */
  lemma RegisterPassed(users: seq<User>, payload: UserPayload, freshId: string)
    requires RegisterOutcome(users, payload, freshId).Ok?
    ensures IsValidEmail(payload.email) && payload.email.Some?
    ensures FindByEmail(users, Lower(payload.email.value)).None?
    ensures RegisterOutcome(users, payload, freshId).value == CreateUser(payload.(userType := Some(Client)), freshId)
  {
  }

  /** A valid e-mail is stored lower-cased and otherwise as typed. */
  lemma ValidEmailField(e: string)
    requires IsValidEmail(Some(e))
    ensures EmailField(Some(e)) == Lower(e)
  {
    ValidEmailIsTrimmed(e);
  }

  /** What `loginUser` decides: both fields present, then the first user whose e-mail and password match. */
  function LoginOutcome(users: seq<User>, email: Option<string>, password: Option<string>): (r: Result<User>)
    ensures r.Ok? <==>
      && RequiredFieldsFilled([email, password])
      && exists i :: 0 <= i < |users| && users[i].email == Lower(OrEmpty(email)) && users[i].password == OrEmpty(password)
    ensures r.Ok? ==> r.value == FindByCredentials(users, Lower(OrEmpty(email)), OrEmpty(password)).value
    ensures !RequiredFieldsFilled([email, password]) ==> r == Err(MissingCredentialsMessage)
    ensures RequiredFieldsFilled([email, password]) && r.Err? ==> r == Err(BadCredentialsMessage)
  {
    if !RequiredFieldsFilled([email, password]) then Err(MissingCredentialsMessage)
    else
      match FindByCredentials(users, Lower(OrEmpty(email)), OrEmpty(password))
      case None => Err(BadCredentialsMessage)
      case Some(u) => Ok(u)
  }

  predicate UniqueEmails(users: seq<User>)
  {
    forall i, j :: 0 <= i < j < |users| ==> users[i].email != users[j].email
  }

  /** A successful registration keeps the stored e-mails distinct and normalised. */
  lemma RegisterKeepsEmailsUnique(users: seq<User>, payload: UserPayload, freshId: string)
    requires UniqueEmails(users)
    requires RegisterOutcome(users, payload, freshId).Ok?
    ensures UniqueEmails(users + [RegisterOutcome(users, payload, freshId).value])
    ensures NormalUser(RegisterOutcome(users, payload, freshId).value)
  {
    RegisterOutcomeAccount(users, payload, freshId);
    RegisterPassed(users, payload, freshId);
    var u := RegisterOutcome(users, payload, freshId).value;
    var r := users + [u];
    forall i, j | 0 <= i < j < |r| ensures r[i].email != r[j].email {
      if j == |users| {
        assert r[i] == users[i];
      }
    }
  }

  /**
   * The duplicate check ignores case: with stored e-mails in lower case (as
   * `createUser` leaves them), a registration whose e-mail matches a stored one up
   * to case is refused with the duplicate message once the earlier checks pass.
   */
  lemma RegisterDuplicateIgnoresCase(users: seq<User>, payload: UserPayload, freshId: string, k: nat)
    requires k < |users| && HasNoUpperAscii(users[k].email)
    requires payload.email.Some? && Lower(users[k].email) == Lower(payload.email.value)
    ensures RegisterOutcome(users, payload, freshId).Err?
    ensures (RequiredFieldsFilled(RegisterFields(payload)) && IsValidEmail(payload.email)
             && |OrEmpty(payload.password)| >= 4)
            ==> RegisterOutcome(users, payload, freshId) == Err(DuplicateMessage)
  {
    LowerNormalizes(users[k].email);
    RegisterOutcomeSpec(users, payload, freshId);
  }

  /** Appending a user whose e-mail no stored user has makes that user the only match for it. */
  lemma {:induction false} FindByCredentialsAppended(users: seq<User>, u: User, email: string, password: string)
    requires forall i :: 0 <= i < |users| ==> users[i].email != email
    requires u.email == email && u.password == password
    ensures FindByCredentials(users + [u], email, password) == Some(u)
  {
    if users == [] {
      assert users + [u] == [u];
    } else {
      assert (users + [u])[1..] == users[1..] + [u];
      FindByCredentialsAppended(users[1..], u, email, password);
    }
  }

  /** After a successful registration, logging in with the same e-mail and password yields the new user. */
  lemma RegisterThenLogin(users: seq<User>, payload: UserPayload, freshId: string)
    requires RegisterOutcome(users, payload, freshId).Ok?
    ensures LoginOutcome(users + [RegisterOutcome(users, payload, freshId).value], payload.email, payload.password)
      == Ok(RegisterOutcome(users, payload, freshId).value)
  {
    RegisterOutcomeSpec(users, payload, freshId);
    var u := RegisterOutcome(users, payload, freshId).value;
    assert RegisterFields(payload)[1..] == [payload.email, payload.password];
    LoginFindsAppended(users, u, payload.email, payload.password);
  }

  lemma LoginFindsAppended(users: seq<User>, u: User, email: Option<string>, password: Option<string>)
    requires RequiredFieldsFilled([email, password])
    requires forall i :: 0 <= i < |users| ==> users[i].email != Lower(OrEmpty(email))
    requires u.email == Lower(OrEmpty(email)) && u.password == OrEmpty(password)
    ensures LoginOutcome(users + [u], email, password) == Ok(u)
  {
    FindByCredentialsAppended(users, u, Lower(OrEmpty(email)), OrEmpty(password));
  }

  /** `registerUser`: on success appends the new client and makes it the session; on failure changes nothing. */
  method RegisterUser(st: Store, payload: UserPayload, freshId: string) returns (r: Result<User>)
    modifies st`usersSlot, st`sessionSlot
    ensures r == RegisterOutcome(old(st.Users()), payload, freshId)
    ensures r.Err? ==> st.usersSlot == old(st.usersSlot) && st.sessionSlot == old(st.sessionSlot)
    ensures r.Ok? ==> st.usersSlot == Stored(old(st.Users()) + [r.value]) && st.sessionSlot == Stored(r.value)
    ensures st.cafesSlot == old(st.cafesSlot)
  {
    if !RequiredFieldsFilled([payload.name, payload.email, payload.password]) {
      return Err(FillAllMessage);
    }
    if !IsValidEmail(payload.email) {
      return Err(InvalidEmailMessage);
    }
    if |OrEmpty(payload.password)| < 4 {
      return Err(ShortPasswordMessage);
    }
    var users := st.GetUsers();
    var existing := FindByEmail(users, Lower(payload.email.value));
    if existing.Some? {
      return Err(DuplicateMessage);
    }
    var newUser := CreateUser(payload.(userType := Some(Client)), freshId);
    st.SaveUsers(users + [newUser]);
    st.SetSession(newUser);
    return Ok(newUser);
  }

  /** `loginUser`: on success the matching user becomes the session; the users are never changed. */
  method LoginUser(st: Store, email: Option<string>, password: Option<string>) returns (r: Result<User>)
    modifies st`sessionSlot
    ensures r == LoginOutcome(old(st.Users()), email, password)
    ensures r.Ok? ==> st.sessionSlot == Stored(r.value)
    ensures r.Err? ==> st.sessionSlot == old(st.sessionSlot)
    ensures st.usersSlot == old(st.usersSlot) && st.cafesSlot == old(st.cafesSlot)
  {
    if !RequiredFieldsFilled([email, password]) {
      return Err(MissingCredentialsMessage);
    }
    var users := st.GetUsers();
    var found := FindByCredentials(users, Lower(OrEmpty(email)), OrEmpty(password));
    if found.None? {
      return Err(BadCredentialsMessage);
    }
    st.SetSession(found.value);
    return Ok(found.value);
  }

  /** `logoutUser`: the session is always left empty. */
  method LogoutUser(st: Store)
    modifies st`sessionSlot
    ensures st.Session() == None
    ensures st.usersSlot == old(st.usersSlot) && st.cafesSlot == old(st.cafesSlot)
  {
    st.ClearSession();
  }
}
