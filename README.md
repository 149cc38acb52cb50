# Cafe Spot Manager — verified model of the data core

Cafe Spot Manager is a React Native app that keeps a directory of coffee shops on
the device. Clients browse the cafes and like them. Administrators register, edit,
deactivate and delete them. This project models the app's data core in Dafny and
proves properties of that model:

- the form validators: e-mail shape, the progressive CNPJ mask, the 14-digit CNPJ
  check, required fields (`Validators`);
- the record factories `createUser` and `createCafe` (`UserModel`, `CafeModel`);
- the device store: three key slots for users, cafes and session, reads that fall
  back to an empty value, and first-start seeding (`Storage`, class `Store`);
- the cafe controller: list, find, save (upsert), delete, toggle active, toggle like
  (`CafeController`);
- the authentication controller: register, login, logout (`AuthController`).

`Text` holds the JavaScript string built-ins the core relies on:
- `trim` and the `\s` class, both using the ECMAScript white-space and
  line-terminator set;
- `toLowerCase` and `toUpperCase`;
- `replace(/\D/g, '')`;
- `slice`.

`Wrappers` holds `Option` and `Result`.

The controllers are module-level methods over a `Store` object.
- `saveCafe`, `deleteCafe`, `toggleCafeStatus`, `toggleLike` and `registerUser` read
  a whole collection, build a new list with a pure function, and write the list back.
  Each method's `ensures` ties the new store state and the returned value to that
  function, and lemmas prove what the list functions promise.
- `listCafes`, `getCafeById` and `loginUser` only read a collection. Their result is a
  function of what they read, and none of them writes a collection; `loginUser` may
  write the session.
- `logoutUser` reads nothing and only clears the session.

A field of a JavaScript payload that is `null` or `undefined` is `None`.
`String(v || '')` is `Text.OrEmpty`. A thrown `Error(message)` is `Err(message)`.
The ids that `Date.now()` and `Math.random()` would mint are parameters
(`freshId`, `adminId`, `luaId`, `brisaId`).

## Model

| member | source | states |
|---|---|---|
| Text.IsWhitespace | src/utils/validators.js:1 | Definition of the ECMAScript WhiteSpace and LineTerminator set (tab, line feed, vertical tab, form feed, carriage return, space, no-break space, U+1680, U+2000-U+200A, the line and paragraph separators, U+202F, U+205F, U+3000 and the byte-order mark) that both the regex class `\s` and `trim` (validators.js:23) use; TrimStart, TrimEnd and EmailRegex are built on it, and TrimEmptyIff and EmailRegexIffShape state what follows from it. |
| Text.OrEmpty | src/utils/validators.js:23 | Definition of the `String(v or '')` coercion of a text value: the text, or the empty string when absent. |
| Text.Trim | src/utils/validators.js:23 | Definition of `trim` as TrimEnd of TrimStart; properties in TrimEmptyIff, TrimTrims and TrimNoWhitespace. |
| Text.TrimStart | src/utils/validators.js:23 | The result is a suffix of the input. Every dropped character is white space, and the result does not begin with white space. |
| Text.TrimEnd | src/utils/validators.js:23 | The result is a prefix of the input. Every dropped character is white space, and the result does not end with white space. |
| Text.TrimEmptyIff | src/utils/validators.js:23 | `trim` yields the empty string exactly when every character is white space. |
| Text.TrimTrims | src/models/Cafe.js:3-18 | `trim` output has no white space at either end, and `trim` leaves an already trimmed string alone. |
| Text.TrimNoWhitespace | src/utils/validators.js:1-3 | A string without white space is its own `trim`. |
| Text.Lower | src/utils/validators.js:3 | Lower-casing keeps the length and maps each character on its own. |
| Text.Upper | src/models/Cafe.js:11 | Upper-casing keeps the length and maps each character on its own. |
| Text.CaseKeepsTrimmed | src/models/User.js:9 | Changing case keeps a trimmed string trimmed. |
| Text.LowerNormalizes | src/models/User.js:9 | Lower-cased text has no upper-case letter, and text without one is unchanged by lower-casing. |
| Text.UpperNormalizes | src/models/Cafe.js:11 | Upper-cased text has no lower-case letter, and text without one is unchanged by upper-casing. |
| Text.Digits | src/utils/validators.js:6 | `replace(/\D/g, '')` yields only digits and never a longer string. |
| Text.DigitsConcat | src/utils/validators.js:6 | Removing non-digits distributes over concatenation. |
| Text.DigitsOfDigits | src/utils/validators.js:19 | A string of digits is unchanged by removing non-digits. |
| Text.DigitsOfNonDigits | src/utils/validators.js:19 | A string without digits becomes empty. |
| Text.Slice | src/utils/validators.js:9-13 | `slice(start, end)` has length `min(end, len) - start`, or 0 when that is negative, and its i-th character is the input's character at `start + i`. |
| Validators.EmailRegex | src/utils/validators.js:1 | Definition of the regex, term by term; properties in EmailRegexIffShape. |
| Validators.IsValidEmail | src/utils/validators.js:1-3 | Definition of `isValidEmail`; properties in IsValidEmailIff and ValidEmailIsTrimmed. |
| Validators.EmailRegexIffShape | src/utils/validators.js:1 | The regex accepts a string exactly when the string has no white space, exactly one `@` with a non-empty local part, and a `.` in the domain that is neither its first nor its last character. |
| Validators.EmailRegexGivesShape | src/utils/validators.js:1 | The regex-to-shape direction of the equivalence above. |
| Validators.EmailShapeGivesRegex | src/utils/validators.js:1 | The shape-to-regex direction of the equivalence above. |
| Validators.EmailShapeTransfer | src/utils/validators.js:1 | The shape depends only on where the white space, `@` and `.` characters occur. |
| Validators.EmailShapeLower | src/utils/validators.js:3 | Lower-casing neither creates nor destroys the shape. |
| Validators.IsValidEmailIff | src/utils/validators.js:1-3 | `isValidEmail(e)` holds exactly when `e` has the shape, and its verdict does not depend on letter case. |
| Validators.ValidEmailIsTrimmed | src/utils/validators.js:1-3 | A valid e-mail has no white space, so `trim` leaves it unchanged. |
| Validators.MaskCnpj | src/utils/validators.js:5-16 | Definition of `maskCnpj`; properties in MaskCnpjLayout, MaskCnpjKeepsDigits, MaskCnpjIdempotent, MaskCnpjProgressive, MaskCnpjEmpty and MaskCnpjFull. |
| Validators.IsValidCnpj | src/utils/validators.js:18-21 | Definition of `isValidCnpj`; properties in IsValidCnpjOfMask. |
| Validators.CnpjDigits | src/utils/validators.js:6 | The mask works on the first `min(14, #digits)` digits of the input, in order. |
| Validators.MaskCnpjLayout | src/utils/validators.js:5-16 | The mask is NN.NNN.NNN/NNNN-NN, filled with the digits in order. It has `.`, `.`, `/` and `-` at positions 2, 6, 10 and 15, each present only once a digit follows it, and its length is the digit count plus the separators present. |
| Validators.FormatCnpjLayout | src/utils/validators.js:9-13 | The grouping of lines 9-13 has that layout for any 14 or fewer digits. |
| Validators.MaskedLayout | src/utils/validators.js:9-13 | After each of the `masked +=` lines, the mask so far has the layout over the digits consumed so far, and its length is those digits plus their separators. |
| Validators.MaskedStep | src/utils/validators.js:10-13 | One `masked +=` line keeps that layout, given the stage before it. |
| Validators.LayoutStep | src/utils/validators.js:10-13 | Appending a separator and the next group's digits at the position where that group starts keeps the layout. |
| Validators.LayoutUpToGivesMask | src/utils/validators.js:5-16 | A mask with the layout on every position and the full length has the exact layout. |
| Validators.MaskCnpjEmpty | src/utils/validators.js:9 | An input without digits masks to the empty string. |
| Validators.MaskCnpjFull | src/utils/validators.js:5-16 | Fourteen or more digits give the full 18-character form built from the first 14 digits. |
| Validators.MaskCnpjKeepsDigits | src/utils/validators.js:5-16 | Removing the separators from the mask gives back exactly the first `min(14, #digits)` digits. |
| Validators.DigitsOfFormat | src/utils/validators.js:9-13 | The separators are the only non-digits the grouping adds, and the groups cover all the digits. |
| Validators.DigitsOfGroup | src/utils/validators.js:10-13 | The digits of one group are that group's slice. |
| Validators.GroupsCover | src/utils/validators.js:9-13 | The slices 0-2, 2-5, 5-8, 8-12 and 12-14, each taken while present, add up to the digits. |
| Validators.MaskCnpjIdempotent | src/utils/validators.js:5-16 | Masking a masked value changes nothing. |
| Validators.MaskCnpjProgressive | src/utils/validators.js:5-16 | While the user types more digits, the earlier mask is a prefix of the later one. |
| Validators.FormatCnpjMonotone | src/utils/validators.js:9-13 | When the digits extend, the grouping extends. |
| Validators.IsValidCnpjOfMask | src/utils/validators.js:18-21 | A masked value passes `isValidCnpj` exactly when the raw input had at least 14 digits. |
| Validators.RequiredFieldsFilled | src/utils/validators.js:23 | Definition of `requiredFieldsFilled`; properties in RequiredFieldsFilledIff. |
| Validators.FilledIff | src/utils/validators.js:23 | One field passes the test exactly when it holds a non-white-space character. |
| Validators.RequiredFieldsFilledIff | src/utils/validators.js:23 | `requiredFieldsFilled` holds exactly when every field holds a non-white-space character. It holds vacuously for no fields. |
| UserModel.TypeLabel | src/models/User.js:1-4 | The two roles are stored as "Cliente" and "Admin", each label belonging to exactly one role. |
| UserModel.EmailField | src/models/User.js:9 | The stored e-mail is trimmed and has no upper-case letter. |
| UserModel.NameField | src/models/User.js:8 | The stored name is trimmed. |
| UserModel.CreateUser | src/models/User.js:6-12 | The id is the one minted. Name and e-mail are normalised, the password is kept as given, and the role defaults to client only when absent. |
| UserModel.CreateUserRoundTrip | src/models/User.js:6-12 | Re-creating a normalised user from its own fields gives the same user with the new id. |
| CafeModel.Field | src/models/Cafe.js:3-18 | A text field is stored trimmed, and an already trimmed value is stored as is. |
| CafeModel.StateField | src/models/Cafe.js:11 | The state is stored trimmed and upper-cased. |
| CafeModel.CreateCafe | src/models/Cafe.js:1-22 | A truthy payload id is kept, otherwise the minted one is used. Every text field is trimmed and the state upper-cased. `imageUrl` is copied untrimmed. `active` defaults to true only when absent (`??`), and `likedBy` defaults to `[]`. |
| CafeModel.CreateCafeOnRecordBlanksAddress | src/models/Cafe.js:5-16 | Applying `createCafe` to a stored record blanks its address and coordinates, because it reads only flat fields. |
| CafeModel.EditForm | src/views/screens/CafeFormScreen.js:45-61 | Definition of the edit form's payload for a stored cafe; properties in EditFormDropsLikes. |
| CafeModel.EditFormDropsLikes | src/views/screens/CafeFormScreen.js:45-61 | Saving a cafe through the edit form rebuilds it exactly, except that its likes become empty. |
| CafeModel.EditFormKeepingLikesRoundTrip | src/views/screens/CafeFormScreen.js:45-61 | With `likedBy` carried in the form, a save rebuilds the cafe exactly. |
| Storage.ReadCollection | src/storage/storage.js:9-22 | A collection read gives the stored list, or `[]` when the key is missing, empty or unparsable. |
| Storage.ReadSession | src/storage/storage.js:9-24 | A session read gives the stored user, or none when the key is missing, empty or unparsable. |
| Storage.SeedAdmin | src/storage/storage.js:31-36 | Definition of the seeded administrator; properties in SeedAdminIsAdmin. |
| Storage.SeedAdminIsAdmin | src/storage/storage.js:31-36 | The seeded account is the administrator "Admin Cafespot" with e-mail admin@cafespot.com and password 123456. |
| Storage.SeedCafes | src/storage/storage.js:43-74 | Two example cafes are created, with the given ids, active and without likes. |
| Storage.SeedSlot | src/storage/storage.js:29-41 | Definition of what seeding does to one collection slot; properties in SeedSlotSpec. |
| Storage.SeedSlotSpec | src/storage/storage.js:28-78 | Seeding fills a slot exactly when it reads as empty. A non-empty slot is untouched, and a second seeding changes nothing. |
| Storage.SeedUsersOnce | src/storage/storage.js:29-38 | On a first start the users become exactly the administrator, and a later start leaves them so. |
| Storage.Store.constructor | src/storage/storage.js:5-7 | The store starts with the three slots as given. |
| Storage.Store.GetUsers | src/storage/storage.js:18 | `getUsers` returns the stored list, or `[]`. |
| Storage.Store.SaveUsers | src/storage/storage.js:19 | `saveUsers` stores the list and touches no other slot. |
| Storage.Store.GetCafes | src/storage/storage.js:21 | `getCafes` returns the stored list, or `[]`. |
| Storage.Store.SaveCafes | src/storage/storage.js:22 | `saveCafes` stores the list and touches no other slot. |
| Storage.Store.GetSession | src/storage/storage.js:24 | `getSession` returns the stored user, or none. |
| Storage.Store.SetSession | src/storage/storage.js:25 | `setSession` makes the user the session and touches no other slot. |
| Storage.Store.ClearSession | src/storage/storage.js:26 | `clearSession` removes the session key, so no session is read. |
| Storage.Store.SeedDefaults | src/storage/storage.js:28-78 | Each collection slot is seeded independently: the users with the administrator, the cafes with the two examples. The session is untouched. |
| Storage.Store.SeedUsersSlot | src/storage/storage.js:29-38 | The users half of seeding. |
| Storage.Store.SeedCafesSlot | src/storage/storage.js:40-77 | The cafes half of seeding. |
| CafeController.FindById | src/controllers/cafeController.js:8 | `find` returns nothing exactly when no cafe has the id. Otherwise it returns the first cafe with the id. |
| CafeController.ReplaceById | src/controllers/cafeController.js:40 | The `map` keeps the length and replaces every entry with the id where it stands, leaving all others alone. |
| CafeController.Upsert | src/controllers/cafeController.js:36-43 | Definition of the collection `saveCafe` writes; properties in UpsertSpec, UpsertTwice and UpsertKeepsIdsUnique. |
| CafeController.UpsertSpec | src/controllers/cafeController.js:36-43 | A known id has every matching entry replaced in place, with the length kept. A new id is appended at the end. Either way the saved cafe is then found by its id. |
| CafeController.UpsertTwice | src/controllers/cafeController.js:36-43 | A second save under the same id updates and does not insert: the length stays and the second cafe wins. |
| CafeController.UpsertKeepsIdsUnique | src/controllers/cafeController.js:36-43 | Saving keeps the ids of the collection distinct. |
| CafeController.RemoveById | src/controllers/cafeController.js:51 | The filter never lengthens the list. |
| CafeController.RemoveByIdMembers | src/controllers/cafeController.js:51 | A cafe survives the delete exactly when it was present and its id differs. |
| CafeController.RemoveByIdCounts | src/controllers/cafeController.js:51 | After the delete no entry has the id, and every other entry keeps its multiplicity. |
| CafeController.RemoveByIdConcat | src/controllers/cafeController.js:51 | The filter distributes over concatenation, so the order is kept. |
| CafeController.RemoveByIdAbsent | src/controllers/cafeController.js:51 | Deleting an absent id changes nothing. |
| CafeController.RemoveByIdIdempotent | src/controllers/cafeController.js:49-54 | Deleting twice is deleting once. |
| CafeController.RemoveUndoesInsert | src/controllers/cafeController.js:36-54 | Deleting a newly appended cafe's id restores the collection. |
| CafeController.ToggleActiveById | src/controllers/cafeController.js:58-60 | Every entry with the id has `active` negated, and everything else is unchanged. |
| CafeController.ToggleActiveInvolution | src/controllers/cafeController.js:56-63 | Toggling the status twice restores the collection. |
| CafeController.FindAfterToggleActive | src/controllers/cafeController.js:56-63 | `toggleCafeStatus` returns the first match with `active` flipped, or nothing when no cafe has the id. |
| CafeController.Without | src/controllers/cafeController.js:71 | The filtered likes lack the user, hold only earlier likes, and keep every other user. |
| CafeController.WithoutConcat | src/controllers/cafeController.js:71 | The likes filter distributes over concatenation, so the other likes keep their order. |
| CafeController.WithoutCounts | src/controllers/cafeController.js:71 | The likes filter drops every copy of the user and keeps every other user's count. |
| CafeController.WithoutAbsent | src/controllers/cafeController.js:71 | Filtering out a user who is absent changes nothing. |
| CafeController.WithoutNoDuplicates | src/controllers/cafeController.js:71 | Filtering keeps a duplicate-free list duplicate-free. |
| CafeController.WithoutConcatLast | src/controllers/cafeController.js:71 | Filtering out the user just appended is filtering the list before the append. |
| CafeController.ToggledLikes | src/controllers/cafeController.js:69-71 | Definition of one cafe's likes after a toggle; properties in ToggledLikesSpec and ToggledLikesTwice. |
| CafeController.ToggledLikesSpec | src/controllers/cafeController.js:69-71 | A toggle flips the user's like and nobody else's, and it keeps the likes duplicate-free. |
| CafeController.ToggledLikesTwice | src/controllers/cafeController.js:69-71 | A double toggle restores the user's like. It restores the exact list when the user had not liked the cafe. |
| CafeController.ToggleLikeById | src/controllers/cafeController.js:67-73 | Every entry with the id has its likes toggled, and everything else is unchanged. |
| CafeController.ToggleLikeKeepsLikesUnique | src/controllers/cafeController.js:65-76 | `toggleLike` keeps every cafe's likes duplicate-free. |
| CafeController.ToggleLikeTwice | src/controllers/cafeController.js:65-76 | A double `toggleLike` restores each cafe's like by the user. It restores the whole collection when no matching cafe had the user's like. |
| CafeController.SeedCafesSameMillisecond | src/storage/storage.js:43-74 | Observation, not a promise of the source: both example ids come from `Date.now()` in one synchronous expression. When they coincide, deleting that id deletes both cafes. |
| CafeController.ListCafes | src/controllers/cafeController.js:5 | `listCafes` returns the collection as read. |
| CafeController.GetCafeById | src/controllers/cafeController.js:6-9 | `getCafeById` returns the first cafe with the id. |
| CafeController.RequiredCafeFields | src/controllers/cafeController.js:13-25 | Definition of the eleven fields `saveCafe` requires, in the source's order: name, street, number, zip, neighborhood, city, state, latitude, longitude, cnpj, averageTicket. Description and image are not among them. Its use is stated in SaveCafe. |
| CafeController.SaveCafe | src/controllers/cafeController.js:11-47 | Missing required fields give the first message, and then a CNPJ without 14 digits gives the second; either way the store is untouched. Otherwise the created cafe is upserted and returned. |
| CafeController.DeleteCafe | src/controllers/cafeController.js:49-54 | `deleteCafe` stores and returns the entries whose id differs. |
| CafeController.ToggleCafeStatus | src/controllers/cafeController.js:56-63 | The toggled collection is stored, and its first match is returned. |
| CafeController.ToggleLike | src/controllers/cafeController.js:65-76 | The collection with the likes toggled is stored, and its first match is returned. |
| AuthController.FindByEmail | src/controllers/authController.js:19 | The lookup returns nothing exactly when no stored user has the e-mail. Otherwise it returns a stored user with that e-mail. |
| AuthController.FindByCredentials | src/controllers/authController.js:36-38 | The lookup returns nothing exactly when no user matches both the e-mail and the password. Otherwise it returns the first user matching both. |
| AuthController.RegisterFields | src/controllers/authController.js:6 | Definition of the three fields `registerUser` requires: name, e-mail and password. The type is not among them. Its use is stated in RegisterOutcomeOrder. |
| AuthController.RegisterOutcome | src/controllers/authController.js:6-27 | Definition of what `registerUser` decides; properties in RegisterOutcomeSpec, RegisterOutcomeOrder and RegisterOutcomeAccount. |
| AuthController.RegisterOutcomeSpec | src/controllers/authController.js:5-28 | Each of the four messages is returned exactly when every earlier check passed and its own failed. On success the result is a client account with the lower-cased e-mail, which belongs to no stored user. |
| AuthController.RegisterOutcomeOrder | src/controllers/authController.js:6-22 | Each refusal message is returned exactly when every earlier check passed and its own failed. |
| AuthController.RegisterOutcomeAccount | src/controllers/authController.js:18-27 | A successful registration is a client account with the trimmed name, the lower-cased e-mail and the password as typed, and no stored user has that e-mail. |
| AuthController.RegisterPassed | src/controllers/authController.js:10-24 | A successful registration passed the e-mail check and found no stored user with the lower-cased e-mail, and its value is the client account `createUser` builds from the payload. |
| AuthController.ValidEmailField | src/controllers/authController.js:19-24 | A valid e-mail is stored simply lower-cased. |
| AuthController.LoginOutcome | src/controllers/authController.js:30-46 | Login succeeds exactly when both fields are filled and some user matches the lower-cased e-mail and the password. The result is the first such user. Otherwise the missing-fields message or the bad-credentials message is returned. |
| AuthController.RegisterKeepsEmailsUnique | src/controllers/authController.js:5-28 | A successful registration keeps the stored e-mails distinct, and the new user is normalised. |
| AuthController.RegisterDuplicateIgnoresCase | src/controllers/authController.js:18-22 | Registration is refused when the e-mail matches a stored one up to case. The message is the duplicate one once the earlier checks pass. |
| AuthController.FindByCredentialsAppended | src/controllers/authController.js:36-38 | An appended user with an e-mail nobody else has is found by their credentials. |
| AuthController.RegisterThenLogin | src/controllers/authController.js:5-46 | After a successful registration, logging in with the same e-mail and password returns the new user. |
| AuthController.LoginFindsAppended | src/controllers/authController.js:30-46 | A login finds an appended user whose e-mail is new. |
| AuthController.RegisterUser | src/controllers/authController.js:5-28 | The result is the registration outcome over the stored users. On success the user is appended and becomes the session. On failure nothing changes, and the cafes are never touched. |
| AuthController.LoginUser | src/controllers/authController.js:30-46 | The result is the login outcome. On success the user becomes the session. The collections are never touched. |
| AuthController.LogoutUser | src/controllers/authController.js:48-50 | Afterwards there is no session, and the collections are untouched. |

## Left out

- AsyncStorage writes always succeed in this model. In the source a failed write rejects the operation's promise. For example, `registerUser` can fail in `setSession` after `saveUsers` has stored the new user, which leaves that user stored with no session. The model cannot express that state.
- Storage.Store.SeedDefaults: takes the two example ids as independent parameters. In the source both come from `Date.now()` in one expression, so they coincide whenever both calls fall in the same millisecond. CafeController.SeedCafesSameMillisecond shows what that does to a delete. With equal ids, `getCafeById` returns only the first, so the second example cannot be fetched by id; both toggles flip both cafes; an edit replaces both entries with the edited cafe; `deleteCafe` removes both.
- The user interface, navigation, `App.js` and the ZIP-code lookup in `src/services/cepService.js` are not part of this model.
- AsyncStorage and the JSON encoding: a slot holds the value itself. `Unreadable` stands for text that `JSON.parse` rejects. The `console.warn` on a parse failure is output only.
- `async`/`await` and concurrent calls: each operation is modelled as atomic.
- `Date.now()` and `Math.random()` are not modelled. The ids they mint are parameters.
- Payload fields hold only text, or are absent. Non-string JavaScript values (numbers, objects) and their `String(...)` conversions are not modelled. A `null` payload in `createCafe` (`payload?.`) is the payload with every field absent.
- Text.Lower: maps only the ASCII letters. JavaScript's full Unicode case mapping is not modelled.
- Text.Upper: maps only the ASCII letters. JavaScript's full Unicode case mapping is not modelled.
- String lengths count Dafny characters (Unicode scalar values). JavaScript counts UTF-16 code units, which differs for characters outside the Basic Multilingual Plane. This affects the password length check in `registerUser`.
- Latitude and longitude stay text, as the source keeps them. Nothing parses them.
- Passwords are stored and compared in clear text, as in the source. No hashing is modelled.
- `cafe.likedBy || []` in `toggleLike`: every modelled record has a `likedBy` list, so the fallback is not modelled.
- The seeded example cafes are stated by their ids, flags and likes (Storage.SeedCafes). Their full field values are not proved, because evaluating the long literals through `trim` is too costly for the verifier.
- CafeController.RemoveById: its own contract states only the length bound. Membership, multiplicity and order are stated in RemoveByIdMembers, RemoveByIdCounts and RemoveByIdConcat.
- `createCafe` is not idempotent on its own output, because it reads only flat fields (CafeModel.CreateCafeOnRecordBlanksAddress). The model follows the code.

## Findings

| source | as written | input that shows it | evidently intended | confidence | as-written member | corrected member |
|---|---|---|---|---|---|---|
| src/views/screens/CafeFormScreen.js:45-61 | The edit form copies every field of the stored cafe except `likedBy`. `createCafe` then defaults it to `[]`, and `saveCafe` replaces the stored record. | A cafe with likes `["u1"]` that an administrator opens and saves unchanged | Editing a cafe keeps its likes | not executed | CafeModel.EditFormDropsLikes | CafeModel.EditFormKeepingLikesRoundTrip |
