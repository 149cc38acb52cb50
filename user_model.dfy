/** The user record and its factory, src/models/User.js. */
module UserModel {
  import opened Wrappers
  import opened Text

  /** `UserTypes`: the two roles. */
  datatype UserType = Client | Admin

  /** The string each role is stored as. */
  function TypeLabel(t: UserType): (stored: string)
    ensures stored == "Cliente" <==> t == Client
    ensures stored == "Admin" <==> t == Admin
  {
    match t
    case Client => "Cliente"
    case Admin => "Admin"
  }

  datatype User = User(id: string, name: string, email: string, password: string, userType: UserType)

  /** The fields `createUser` reads; each may be absent. */
  datatype UserPayload = UserPayload(
    name: Option<string>, email: Option<string>, password: Option<string>, userType: Option<UserType>)

  /** A user record in the form `createUser` produces: trimmed name, trimmed lower-case e-mail. */
  predicate NormalUser(u: User)
  {
    Trimmed(u.name) && Trimmed(u.email) && HasNoUpperAscii(u.email)
  }

  /** `String(email || '').trim().toLowerCase()`. */
  function EmailField(v: Option<string>): (r: string)
    ensures Trimmed(r) && HasNoUpperAscii(r)
  {
    TrimTrims(OrEmpty(v));
    CaseKeepsTrimmed(Trim(OrEmpty(v)));
    LowerNormalizes(Trim(OrEmpty(v)));
    Lower(Trim(OrEmpty(v)))
  }

  /** `String(name || '').trim()`. */
  function NameField(v: Option<string>): (r: string)
    ensures Trimmed(r)
  {
    TrimTrims(OrEmpty(v));
    Trim(OrEmpty(v))
  }

  /**
   * `createUser`, with the minted id (`Date.now()` joined to a random suffix) as a
   * parameter: trims the name, trims then lower-cases the e-mail, keeps the password
   * as given and defaults the role to client.
   */
  function CreateUser(payload: UserPayload, id: string): (u: User)
    ensures u.id == id
    ensures NormalUser(u)
    ensures u.name == NameField(payload.name) && u.email == EmailField(payload.email)
    ensures u.password == OrEmpty(payload.password)
    ensures u.userType == if payload.userType.Some? then payload.userType.value else Client
  {
    User(id, NameField(payload.name), EmailField(payload.email), OrEmpty(payload.password),
      if payload.userType.Some? then payload.userType.value else Client)
  }

  /** The payload that re-creates a stored user. */
  function PayloadOf(u: User): UserPayload
  {
    UserPayload(Some(u.name), Some(u.email), Some(u.password), Some(u.userType))
  }

  /** The user factory is stable on its own output: only the id is minted afresh. */
  lemma CreateUserRoundTrip(u: User, id: string)
    requires NormalUser(u)
    ensures CreateUser(PayloadOf(u), id) == u.(id := id)
  {
    TrimTrims(u.name);
    TrimTrims(u.email);
    LowerNormalizes(u.email);
  }
}
