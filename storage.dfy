/**
 * The device store of src/storage/storage.js: three slots (users, cafes, session),
 * reads that fall back to an empty value, and the first-start seeding.
 */
module Storage {
  import opened Wrappers
  import opened UserModel
  import opened CafeModel

  /**
   * What a storage key holds: nothing (or an empty string), text that does not parse
   * to a value, or a stored value. Writes store the value itself; the JSON encoding
   * between them is not part of this model.
   */
  datatype Slot<T> = Missing | Unreadable | Stored(value: T)

  /** `parseJSON(...) || []`: a collection read degrades to the empty list. */
  function ReadCollection<T>(slot: Slot<seq<T>>): (r: seq<T>)
    ensures slot.Stored? ==> r == slot.value
    ensures !slot.Stored? ==> r == []
  {
    match slot
    case Stored(v) => v
    case _ => []
  }

  /** `parseJSON(...)` of the session key: a missing or unreadable session reads as none. */
  function ReadSession(slot: Slot<User>): (r: Option<User>)
    ensures r.Some? <==> slot.Stored?
    ensures slot.Stored? ==> r == Some(slot.value)
  {
    match slot
    case Stored(u) => Some(u)
    case _ => None
  }

  /** The bootstrap administrator account. */
  const AdminPayload: UserPayload :=
    UserPayload(Some("Admin Cafespot"), Some("admin@cafespot.com"), Some("123456"), Some(Admin))

  function SeedAdmin(id: string): User
  {
    CreateUser(AdminPayload, id)
  }

  /** The seeded account is an administrator with the known e-mail and password. */
  lemma SeedAdminIsAdmin(id: string)
    ensures SeedAdmin(id) == User(id, "Admin Cafespot", "admin@cafespot.com", "123456", Admin)
  {
    var u := User("", "Admin Cafespot", "admin@cafespot.com", "123456", Admin);
    assert NormalUser(u);
    CreateUserRoundTrip(u, id);
  }

  const LuaAltaPayload: CafePayload :=
    CafePayload(
      None, Some("Lua Alta Cafe"), Some("Torrefacao autoral com graos locais e doces artesanais."),
      Some("Rua Paraiba"), Some("120"), Some("30110-012"), Some("Savassi"), Some("Belo Horizonte"),
      Some("MG"), Some("-19.9372"), Some("-43.9329"), Some("12.345.678/0001-90"), Some("R$ 28"),
      Some("https://images.unsplash.com/photo-1509042239860-f550ce710b93?w=1200"), None, Some([]))

  const BrisaPayload: CafePayload :=
    CafePayload(
      None, Some("Brisa Cafe Lab"), Some("Cold brew, musica indie e mesas colaborativas."),
      Some("Av. Paulista"), Some("1400"), Some("01310-100"), Some("Bela Vista"), Some("Sao Paulo"),
      Some("SP"), Some("-23.5614"), Some("-46.6560"), Some("98.765.432/0001-01"), Some("R$ 32"),
      Some("https://images.unsplash.com/photo-1495474472287-4d71bcdd2085?w=1200"), None, Some([]))

  /** The two example cafes, with the ids `Date.now()` mints for them as parameters. */
  function SeedCafes(luaId: string, brisaId: string): (cs: seq<Cafe>)
    ensures |cs| == 2 && cs[0].id == luaId && cs[1].id == brisaId
    ensures cs[0].likedBy == [] && cs[1].likedBy == []
    ensures cs[0].active && cs[1].active
  {
    [CreateCafe(LuaAltaPayload, luaId), CreateCafe(BrisaPayload, brisaId)]
  }

  /** What seeding does to one collection slot: replace it only when it reads as empty. */
  function SeedSlot<T>(slot: Slot<seq<T>>, defaults: seq<T>): Slot<seq<T>>
  {
    if |ReadCollection(slot)| == 0 then Stored(defaults) else slot
  }

  /** Seeding a slot fills it exactly when it read as empty, and seeding twice is seeding once. */
  lemma SeedSlotSpec<T>(slot: Slot<seq<T>>, defaults: seq<T>, later: seq<T>)
    requires |defaults| > 0
    ensures |ReadCollection(slot)| == 0 ==> ReadCollection(SeedSlot(slot, defaults)) == defaults
    ensures |ReadCollection(slot)| > 0 ==> SeedSlot(slot, defaults) == slot
    ensures SeedSlot(SeedSlot(slot, defaults), later) == SeedSlot(slot, defaults)
  {
  }

  /** The three slots of the device's key-value store. */
  class Store {
    var usersSlot: Slot<seq<User>>
    var cafesSlot: Slot<seq<Cafe>>
    var sessionSlot: Slot<User>

    /** A store in whatever state the device left it. */
    constructor(users: Slot<seq<User>>, cafes: Slot<seq<Cafe>>, session: Slot<User>)
      ensures usersSlot == users && cafesSlot == cafes && sessionSlot == session
    {
      usersSlot, cafesSlot, sessionSlot := users, cafes, session;
    }

    function Users(): seq<User>
      reads this
    {
      ReadCollection(usersSlot)
    }

    function Cafes(): seq<Cafe>
      reads this
    {
      ReadCollection(cafesSlot)
    }

    function Session(): Option<User>
      reads this
    {
      ReadSession(sessionSlot)
    }

    /** `getUsers`: the stored users, or none when the slot is missing or unreadable. */
    method GetUsers() returns (users: seq<User>)
      ensures usersSlot.Stored? ==> users == usersSlot.value
      ensures !usersSlot.Stored? ==> users == []
    {
      users := ReadCollection(usersSlot);
    }

    /** `saveUsers`. */
    method SaveUsers(users: seq<User>)
      modifies this`usersSlot
      ensures usersSlot == Stored(users) && Users() == users
      ensures cafesSlot == old(cafesSlot) && sessionSlot == old(sessionSlot)
    {
      usersSlot := Stored(users);
    }

    /** `getCafes`: the stored cafes, or none when the slot is missing or unreadable. */
    method GetCafes() returns (cafes: seq<Cafe>)
      ensures cafesSlot.Stored? ==> cafes == cafesSlot.value
      ensures !cafesSlot.Stored? ==> cafes == []
    {
      cafes := ReadCollection(cafesSlot);
    }

    /** `saveCafes`. */
    method SaveCafes(cafes: seq<Cafe>)
      modifies this`cafesSlot
      ensures cafesSlot == Stored(cafes) && Cafes() == cafes
      ensures usersSlot == old(usersSlot) && sessionSlot == old(sessionSlot)
    {
      cafesSlot := Stored(cafes);
    }

    /** `getSession`: the session user, or none when the slot is missing or unreadable. */
    method GetSession() returns (session: Option<User>)
      ensures sessionSlot.Stored? ==> session == Some(sessionSlot.value)
      ensures !sessionSlot.Stored? ==> session == None
    {
      session := ReadSession(sessionSlot);
    }

    /** `setSession`. */
    method SetSession(user: User)
      modifies this`sessionSlot
      ensures Session() == Some(user)
      ensures usersSlot == old(usersSlot) && cafesSlot == old(cafesSlot)
    {
      sessionSlot := Stored(user);
    }

    /** `clearSession`: the key is removed. */
    method ClearSession()
      modifies this`sessionSlot
      ensures sessionSlot == Missing && Session() == None
      ensures usersSlot == old(usersSlot) && cafesSlot == old(cafesSlot)
    {
      sessionSlot := Missing;
    }

    /**
     * `seedDefaults`: an empty users collection becomes the one administrator, an
     * empty cafes collection the two example cafes; a non-empty one is left alone.
     */
    method SeedDefaults(adminId: string, luaId: string, brisaId: string)
      modifies this`usersSlot, this`cafesSlot
      ensures usersSlot == SeedSlot(old(usersSlot), [SeedAdmin(adminId)])
      ensures cafesSlot == SeedSlot(old(cafesSlot), SeedCafes(luaId, brisaId))
      ensures sessionSlot == old(sessionSlot)
    {
      SeedUsersSlot([SeedAdmin(adminId)]);
      SeedCafesSlot(SeedCafes(luaId, brisaId));
    }

    /** The users half of `seedDefaults`. */
    method SeedUsersSlot(defaults: seq<User>)
      modifies this`usersSlot
      ensures usersSlot == SeedSlot(old(usersSlot), defaults)
      ensures cafesSlot == old(cafesSlot) && sessionSlot == old(sessionSlot)
    {
      var existingUsers := GetUsers();
      if |existingUsers| == 0 {
        SaveUsers(defaults);
      }
    }

    /** The cafes half of `seedDefaults`. */
    method SeedCafesSlot(defaults: seq<Cafe>)
      modifies this`cafesSlot
      ensures cafesSlot == SeedSlot(old(cafesSlot), defaults)
      ensures usersSlot == old(usersSlot) && sessionSlot == old(sessionSlot)
    {
      var existingCafes := GetCafes();
      if |existingCafes| == 0 {
        SaveCafes(defaults);
      }
    }
  }

  /**
   * A first start and a later one: seeding an empty users slot stores exactly the
   * administrator, and seeding again on the next start leaves it as it is.
   */
  lemma SeedUsersOnce(slot: Slot<seq<User>>, adminId: string, later: seq<User>)
    requires |ReadCollection(slot)| == 0
    ensures var once := SeedSlot(slot, [SeedAdmin(adminId)]);
      && ReadCollection(once) == [User(adminId, "Admin Cafespot", "admin@cafespot.com", "123456", Admin)]
      && SeedSlot(once, later) == once
  {
    SeedSlotSpec(slot, [SeedAdmin(adminId)], later);
    SeedAdminIsAdmin(adminId);
  }
}
