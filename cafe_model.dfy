/** The cafe record and its factory, src/models/Cafe.js. */
module CafeModel {
  import opened Wrappers
  import opened Text

  datatype Address = Address(
    street: string, number: string, zip: string, neighborhood: string, city: string, state: string)

  /** Coordinates are kept as the text typed in; nothing parses them. */
  datatype Location = Location(latitude: string, longitude: string)

  datatype Cafe = Cafe(
    id: string,
    name: string,
    description: string,
    address: Address,
    location: Location,
    cnpj: string,
    averageTicket: string,
    imageUrl: string,
    active: bool,
    likedBy: seq<string>)

  /** The flat payload `createCafe` reads; each field may be absent. */
  datatype CafePayload = CafePayload(
    id: Option<string>,
    name: Option<string>,
    description: Option<string>,
    street: Option<string>,
    number: Option<string>,
    zip: Option<string>,
    neighborhood: Option<string>,
    city: Option<string>,
    state: Option<string>,
    latitude: Option<string>,
    longitude: Option<string>,
    cnpj: Option<string>,
    averageTicket: Option<string>,
    imageUrl: Option<string>,
    active: Option<bool>,
    likedBy: Option<seq<string>>)

  /** JavaScript truthiness of a text value: present and non-empty. */
  predicate Truthy(v: Option<string>)
  {
    v.Some? && v.value != ""
  }

  /** `String(v || '').trim()`. */
  function Field(v: Option<string>): (r: string)
    ensures Trimmed(r)
    ensures Trimmed(OrEmpty(v)) ==> r == OrEmpty(v)
  {
    TrimTrims(OrEmpty(v));
    Trim(OrEmpty(v))
  }

  /** A cafe record in the form `createCafe` produces. */
  predicate NormalCafe(c: Cafe)
  {
    && c.id != ""
    && Trimmed(c.name) && Trimmed(c.description)
    && Trimmed(c.address.street) && Trimmed(c.address.number) && Trimmed(c.address.zip)
    && Trimmed(c.address.neighborhood) && Trimmed(c.address.city)
    && Trimmed(c.address.state) && HasNoLowerAscii(c.address.state)
    && Trimmed(c.location.latitude) && Trimmed(c.location.longitude)
    && Trimmed(c.cnpj) && Trimmed(c.averageTicket)
  }

  /** `String(state || '').trim().toUpperCase()`. */
  function StateField(v: Option<string>): (r: string)
    ensures Trimmed(r) && HasNoLowerAscii(r)
  {
    TrimTrims(OrEmpty(v));
    CaseKeepsTrimmed(Trim(OrEmpty(v)));
    UpperNormalizes(Trim(OrEmpty(v)));
    Upper(Trim(OrEmpty(v)))
  }

  /**
   * `createCafe`, with the id `Date.now()` would mint as the parameter `freshId`:
   * a truthy payload id is kept, every text field is trimmed (the state also
   * upper-cased), the image URL is copied untrimmed, `active` defaults to true only
   * when absent and `likedBy` defaults to the empty list.
   */
  function CreateCafe(payload: CafePayload, freshId: string): (c: Cafe)
    ensures c.id == if Truthy(payload.id) then payload.id.value else freshId
    ensures freshId != "" ==> NormalCafe(c)
    ensures c.name == Field(payload.name) && c.description == Field(payload.description)
    ensures c.cnpj == Field(payload.cnpj) && c.averageTicket == Field(payload.averageTicket)
    ensures c.address == Address(
      Field(payload.street), Field(payload.number), Field(payload.zip),
      Field(payload.neighborhood), Field(payload.city), StateField(payload.state))
    ensures c.location == Location(Field(payload.latitude), Field(payload.longitude))
    ensures c.imageUrl == OrEmpty(payload.imageUrl)
    ensures c.active == if payload.active.Some? then payload.active.value else true
    ensures c.likedBy == if payload.likedBy.Some? then payload.likedBy.value else []
  {
    Cafe(
      if Truthy(payload.id) then payload.id.value else freshId,
      Field(payload.name),
      Field(payload.description),
      Address(
        Field(payload.street), Field(payload.number), Field(payload.zip),
        Field(payload.neighborhood), Field(payload.city), StateField(payload.state)),
      Location(Field(payload.latitude), Field(payload.longitude)),
      Field(payload.cnpj),
      Field(payload.averageTicket),
      OrEmpty(payload.imageUrl),
      if payload.active.Some? then payload.active.value else true,
      if payload.likedBy.Some? then payload.likedBy.value else [])
  }

  /**
   * A stored record read back as a payload, the way `createCafe` reads its argument:
   * the nested address and location are not among the flat fields it looks at.
   */
  function RecordAsPayload(c: Cafe): CafePayload
  {
    CafePayload(
      Some(c.id), Some(c.name), Some(c.description),
      None, None, None, None, None, None, None, None,
      Some(c.cnpj), Some(c.averageTicket), Some(c.imageUrl), Some(c.active), Some(c.likedBy))
  }

  /** Re-applying `createCafe` to its own output blanks the address and the coordinates. */
  lemma CreateCafeOnRecordBlanksAddress(c: Cafe, freshId: string)
    ensures CreateCafe(RecordAsPayload(c), freshId).address == Address("", "", "", "", "", "")
    ensures CreateCafe(RecordAsPayload(c), freshId).location == Location("", "")
  {
  }

  /**
   * The edit form's payload for an existing cafe: the record flattened back into
   * form fields. As written it copies `active` but not `likedBy`.
   */
  function EditForm(c: Cafe): CafePayload
  {
    CafePayload(
      Some(c.id), Some(c.name), Some(c.description),
      Some(c.address.street), Some(c.address.number), Some(c.address.zip),
      Some(c.address.neighborhood), Some(c.address.city), Some(c.address.state),
      Some(c.location.latitude), Some(c.location.longitude),
      Some(c.cnpj), Some(c.averageTicket), Some(c.imageUrl), Some(c.active), None)
  }

  /** Saving an edited cafe through the form rebuilds it exactly, except that its likes are reset. */
  lemma EditFormDropsLikes(c: Cafe, freshId: string)
    requires NormalCafe(c)
    ensures CreateCafe(EditForm(c), freshId) == c.(likedBy := [])
    ensures c.likedBy != [] ==> CreateCafe(EditForm(c), freshId) != c
  {
    TrimTrims(c.address.state);
    UpperNormalizes(c.address.state);
  }

  /** The edit form's payload with the likes carried over as well. */
  function EditFormKeepingLikes(c: Cafe): CafePayload
  {
    EditForm(c).(likedBy := Some(c.likedBy))
  }

  /** With the likes carried over, flattening and re-creating a cafe gives back the same record. */
  lemma EditFormKeepingLikesRoundTrip(c: Cafe, freshId: string)
    requires NormalCafe(c)
    ensures CreateCafe(EditFormKeepingLikes(c), freshId) == c
  {
    TrimTrims(c.address.state);
    UpperNormalizes(c.address.state);
  }
}
