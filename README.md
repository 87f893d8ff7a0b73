# FSDBackend study-platform core, modelled in Dafny

The system is the back end of a study platform. Students register or sign in
with Google, store generated summaries and exams, and schedule weekly study
reminders that go out by Gmail. Its core, modelled here, is:

- **Session handling**: registration, login, refresh-token rotation, logout,
  the bearer-token middleware, and the Google sign-in callback. The
  `jsonwebtoken` and `bcrypt` calls are concrete stand-ins that keep what
  callers rely on. A token verifies back to the claims it was signed with. A
  password matches a hash exactly when its first 72 UTF-8 bytes equal those
  of the password the hash was made from, which bcrypt's key uses.
- **The Mongo schemas**: `Users` (the one the auth routes use), `User` (the
  one the profile endpoints use), `Content` and `Notification`, with their
  validators, defaults and unique indexes. Mongoose pluralises both `Users`
  and `User` to the collection `users`, so the two schemas are two views of
  one collection: one document type, one set of unique indexes, and users
  created through either one can log in, be updated and get reminders. Each
  collection is a `Store.Collection` object with a map of documents and their
  insertion order. The model takes the results of an unsorted `find` or
  `findOne` in that order (see "## Left out").
- **The content controller**: create, read, update, soft delete, restore,
  permanent delete, and the four listing queries.
- **The profile controller**: the data-URL picture guard and the
  hashed-password create.
- **The reminder scheduler tick and the mail it sends**:
  - the token refresh of `authorize`;
  - the RFC 2047 encoded-word subject;
  - the base64url raw message (section 5 of RFC 4648 over the UTF-8 bytes of
    RFC 3629).
- **The Python generators**:
  - the prompt builder, the quote fixer, the text-to-questions fallback and
    the error fallback of `generate_json.py`;
  - `validate_and_repair_json` and the page builder of
    `generate_test_html_from_json.py`;
  - the summary page builder of `generate_summary_html_from_json.py`.

Each source file is one module. State that the source updates in place is
modelled as objects:

- the collections are a `Store.Collection` class whose methods change `docs`
  and `order`;
- `token.json` is a `Mail.TokenFile` object.

Loops become methods with invariants, proved against recursive specification
functions. The properties promised are proved about those functions as
lemmas.

**Time, randomness, ids and outside calls.** Clocks, random numbers, fresh
ObjectIds and the results of foreign calls become parameters:

- `nowSec` / `nowMs` / `now` for the clock;
- `nonce` and `salt` for the random values;
- `freshId` for new ObjectIds;
- `refreshed` and `sendError` for the Google OAuth and Gmail answers;
- `delivered` for the outcome of each send;
- `castable` for whether Mongo can cast an id string to an ObjectId;
- `draw` for `random.shuffle`'s random indices;
- `dumps` for `json.dumps`.

Subjects (`models/subjectModel.js`) appear only as a map from id to title.

**Behaviour of the code worth knowing:**

- `register` does no duplicate pre-check. A duplicate is refused by the unique
  index when the document is written.
- A refresh token that is not on the user's list is simply refused. No other
  session of that user is revoked.
- A failed refresh answers 400, not 401. The test file `tests/Auth.test.js:138`
  expects 401.
- The default export of `controllers/authController.js:162` holds only
  `register`, `login`, `refresh` and `logout`. `generateToken` is not exported
  at all, and `authMiddleware` only as a named export. The Google callback reads
  `generateToken` off the default export (see Findings).
- Every router imports that default export and registers
  `authController.authMiddleware`, which is `undefined` there, as a route
  handler: `routes/usersRoute.js:24`, `:26` and `:28`, `routes/contentRoute.js:165`,
  and `routes/subjectRoute.js:51` and `:64-67`. `routes/authRoute.js:386` also
  registers `authController.profile`, which exists nowhere. Express refuses a
  handler that is not a function when the route is registered. So importing
  `routes/usersRoute.js` at `server.js:6` throws, and the server as written
  never starts. The model describes each handler as it behaves once the
  routers register, for example with `authMiddleware` imported by name.
- The scheduler's import in `server.js:16` is commented out, so the tick is
  modelled as the function it would run.

## Model

| member | source | states |
|---|---|---|
| AuthController.GenerateToken | controllers/authController.js:36-52 | `null` exactly when the secret is unset; a signing error (the throw of `jwt.sign` on an undefined `expiresIn`) exactly when the secret is set and a lifetime is not; otherwise an access and a refresh token over one `{ _id, random }` payload |
| AuthController.GenerateTokenClaims | controllers/authController.js:40-50 | With the secret and both lifetimes set: both tokens decode to the user id, the shared random value and the issue time; their expiries are issue time plus the access and refresh lifetimes; the two tokens are equal exactly when the lifetimes are |
| AuthController.RegisteredUser | controllers/authController.js:8-20 | The user `register` creates stores the bcrypt hash of the password, a falsy picture becomes null, the token list is empty, email and username are the request's, and the full name is dropped because the `Users` schema has no such path |
| AuthController.RegisteredPasswordMatches | controllers/authController.js:9-17 | A registered user's stored hash matches an attempted password exactly when the two share their bcrypt key (the first 72 UTF-8 bytes); between passwords of at most 72 bytes, exactly when the attempt is the registration password |
| AuthController.Register | controllers/authController.js:6-34 | No password: 400 and nothing stored. A write refused by a validator, or by a unique index over the whole `users` collection (documents of either schema): 400 and nothing stored. No secret: 500, with the user kept and no token. A lifetime unset: signing throws, 400, with the user kept and no token. Otherwise 200 with the user holding exactly the new refresh token, plus the access token. The collection invariant is kept |
| AuthController.IssueFirstToken | controllers/authController.js:22-30 | After the user is created: 500 with the store unchanged when no tokens come back; 400 with the store unchanged when signing throws; otherwise the token list becomes exactly the new refresh token, and the reply carries the saved user and the access token |
| AuthController.Login | controllers/authController.js:54-84 | The first document of the `users` collection, created through either schema, whose email or username is the identifier is checked. None: 400 "wrong username or password". A missing password on either side throws: 400. A hash mismatch: 400 with the same message. No secret: 500 "Server Error". A lifetime unset: signing throws, 400 and no change. Otherwise 200 with both tokens, and the refresh token appended to the user's list |
| AuthController.AcceptRefresh | controllers/authController.js:86-101 | A token is accepted only when the secret is set, the token is present, it verifies, its user exists and the token is on that user's list; the accepted id is the token's user |
| AuthController.IssuedRefreshAccepted | controllers/authController.js:46-50 | With the secret and both lifetimes set, a refresh token issued to a user and still on their list is accepted, for that user, exactly until its expiry |
| AuthController.Spend | controllers/authController.js:102 | Filtering removes every copy of the spent token and keeps every other token |
| AuthController.SpentTokenRefused | controllers/authController.js:102-103 | Once spent, a refresh token is refused at any later time, whatever new tokens are appended (rotation makes a token single-use) |
| AuthController.VerifyRefreshToken | controllers/authController.js:86-107 | Resolves to exactly the accepted user; on success only that user's token list changes, losing the token; on failure nothing changes |
| AuthController.Logout | controllers/authController.js:109-117 | An accepted token: 200 "success", and the token is removed from its user. Otherwise: 400 "fail" and nothing changes |
| AuthController.Refresh | controllers/authController.js:119-141 | An accepted token: 200 with a new pair and the user id, and the user's list loses the old token and gains the new refresh token. A lifetime unset: signing throws after the old token was spent, so 400 with that token removed and none added. Otherwise: 400 "fail" and nothing changes. Never 500, because acceptance implies a secret |
| AuthController.Rotate | controllers/authController.js:126-137 | For a verified user: a lifetime unset gives 400 and no change; otherwise 200 with the new pair and the user id, and the new refresh token appended to the user's list |
| AuthController.BearerToken | controllers/authController.js:144-145 | A token is found only in a present, non-empty header, and never contains a space (it is one space-separated word) |
| AuthController.AuthMiddleware | controllers/authController.js:143-160 | Passes exactly when the secret is set and the bearer token is present and verifies, yielding the token's user id; every refusal is 401 "Access Denied" |
| AuthController.BearerAccessAccepted | controllers/authController.js:143-160 | With the secret and both lifetimes set, `Bearer <access token>` of a user passes with that user's id until the access token's expiry, and is refused with 401 afterwards |
| GoogleAuth.Linked | routes/authRoute.js:39-46 | Linking an email-matched user sets its googleId, replaces the picture only when the profile has one, and changes nothing else |
| GoogleAuth.Created | routes/authRoute.js:48-55 | A new Google user takes the profile's first email and id, the display name plus a random suffix as username, an empty token list, and no password |
| GoogleAuth.LinkPasses | routes/authRoute.js:41-46 | Linking a valid stored user to an unused Google id passes every validator and unique index |
| GoogleAuth.VerifyCallback | routes/authRoute.js:30-64 | A googleId match authenticates that user with no change. Otherwise, no email fails. An email match, among documents of either schema, links and authenticates that user. Otherwise a new user is created, or the callback fails when the write is refused by the validators or by a unique index over the whole `users` collection. An authenticated user always carries the profile's Google id |
| GoogleAuth.GoogleCallback | routes/authRoute.js:118-140 | Corrected callback: no token pair (no secret, or signing throws) redirects to the error page with no change; otherwise the refresh token is pushed onto the user's list (nothing happens when the id has no document) and the redirect carries the access token |
| GoogleAuth.GoogleCallbackAsWritten | routes/authRoute.js:124 | As wired, `generateToken` is not on the default export, so the call throws and the redirect is always the error page |
| GoogleAuth.CallbackWiringLosesSessions | routes/authRoute.js:124-134 | The default export lacks `generateToken`, and with the secret and both lifetimes set the intended handler would issue tokens and redirect to a URL different from the error page |
| Jwt.Verify | controllers/authController.js:92-96 | A token verifies only when it decodes to claims whose expiry, if any, is still ahead |
| Jwt.DecodeSign | controllers/authController.js:41-45 | Decoding a signed token gives back exactly the claims signed |
| Jwt.VerifySign | controllers/authController.js:92-96 | A token signed with the secret verifies to its claims before its expiry and is refused as expired from then on |
| Jwt.SignInjective | controllers/authController.js:41-50 | Different claims never sign to the same token |
| Jwt.SignSplits | controllers/authController.js:41-45 | A signed token splits at '.' into its claim fields and the digest |
| Bcrypt.HashSplits | controllers/authController.js:9-10 | A hash splits at '$' into the scheme, the cost and the salt, followed by the rest |
| Bcrypt.CompareHash | controllers/authController.js:63 | A password matches a hash exactly when its bcrypt key (its first 72 UTF-8 bytes) equals the key of the password the hash was made from |
| Bcrypt.Key | controllers/authController.js:10 | The key bcrypt hashes is at most 72 bytes long |
| Bcrypt.CompareHashExact | controllers/authController.js:63 | Between passwords of at most 72 UTF-8 bytes, a password matches a hash exactly when the hash was made from that password |
| Bcrypt.TruncationExample | controllers/authController.js:63 | Two different 73-character passwords that share their first 72 characters match the same hash |
| UsersModel.NewUser | models/usersModel.js:5-44 | A new `Users` document keeps the given fields; an unset token list is empty, 2FA is off and has no secret, and there is no full name |
| UsersModel.Validate | models/usersModel.js:6-21 | Valid exactly when username and email are non-empty and there is a password or a Google id |
| UsersModel.IndexCheck | models/usersModel.js:9-30 | Passes exactly when no other document of the `users` collection shares the username or the email (the non-sparse indexes, where two unset values collide) or a set Google id (the sparse index) |
| UsersModel.CheckWrite | models/usersModel.js:5-44 | A write passes exactly when the document validates and passes the index check |
| UsersModel.CheckedWriteKeepsUnique | models/usersModel.js:9-30 | A write that passes the index check keeps every pair of stored documents collision-free |
| UsersModel.TokenWritePasses | models/usersModel.js:31-35 | Replacing only the token list of a valid stored user always passes |
| UsersModel.Create | models/usersModel.js:5-44 | `create` stores the document in the shared `users` collection under a fresh id exactly when the write passes, and otherwise changes nothing; the uniqueness invariant is kept |
| UsersModel.Save | models/usersModel.js:5-44 | `save` replaces the document in the shared `users` collection exactly when the write passes, and otherwise changes nothing; the uniqueness invariant is kept |
| UserModel.NewPerson | models/userModel.js:3-30 | A new document built through `User` keeps the given fields and defaults the token list to empty; it has no Google id and 2FA is off |
| UserModel.Validate | models/userModel.js:4-21 | Valid exactly when email, username, full name and password are all non-empty |
| UserModel.CheckWrite | models/userModel.js:4-13 | A create passes exactly when the document satisfies the `User` validators and collides with no other document of the shared `users` collection |
| UserModel.Create | models/userModel.js:3-30 | Stores under a fresh id in the shared `users` collection exactly when the write passes, otherwise no change; uniqueness kept |
| UserModel.ValidatePaths | models/userModel.js:4-21 | The update validators pass exactly when every required path the update sets is a non-empty string; paths it leaves alone are not checked |
| UserModel.Update | models/userModel.js:3-30 | Once the set paths have validated, replaces the document by id exactly when the shared unique indexes pass, otherwise no change; uniqueness kept |
| NotificationModel.Validate | models/notificationModel.js:3-20 | Valid exactly when both ids are non-empty and the day is one of the seven English weekday names |
| Store.Matching | controllers/contentController.js:156 | A query answers only ids taken from the natural order |
| Store.MatchingMembers | controllers/contentController.js:156 | An id is in a query's answer exactly when it is stored and its document matches the filter |
| Store.MatchingDistinct | controllers/contentController.js:156 | A query over distinct ids answers each document at most once |
| Store.FirstMatchingNone | controllers/contentController.js:27 | `findOne` finds nothing exactly when no stored document matches |
| Store.Without | controllers/contentController.js:115 | Removing an id from the natural order keeps every other id and only those |
| Store.Collection.constructor | controllers/contentController.js:9 | A new collection is empty |
| Store.Collection.Insert | controllers/contentController.js:51-59 | `create` adds the document under its fresh id, last in natural order |
| Store.Collection.Replace | controllers/authController.js:27-28 | `save` replaces the document by id and keeps the order |
| Store.Collection.Remove | controllers/contentController.js:115 | `findByIdAndDelete` answers the removed document, or nothing, and removes the id from the documents and the order |
| Store.Collection.FindAll | controllers/contentController.js:167 | `find` answers, in natural order and without repeats, exactly the stored ids whose documents match |
| Store.Collection.FindFirst | controllers/contentController.js:27 | `findOne` answers the first match in natural order, and nothing exactly when no document matches |
| ContentModel.NewContent | models/contentModel.js:3-46 | Unset fields take the schema defaults: null subject, "Untitled Title", not shared, not a copy, not deleted, no deletion time, created now |
| ContentModel.Fields | models/contentModel.js:42-45 | The UTC hour, minute, second and millisecond of an instant are the usual divisions of its milliseconds |
| ContentModel.PadLeft | models/contentModel.js:49-55 | Zero padding keeps the digits as the suffix and fills the front with '0' up to the width |
| ContentModel.DateStringHasNoT | models/contentModel.js:49-51 | The date part of the ISO string has no 'T', so splitting at 'T' separates date and time |
| ContentModel.IsoSplit | models/contentModel.js:49-55 | An ISO string splits at 'T' into exactly its date part and its time part |
| ContentModel.ClockReadsBack | models/contentModel.js:53-55 | The eight-character clock reads back as hour, minute and second |
| ContentModel.CreationTimeIsClock | models/contentModel.js:49-55 | `creationDate` is the date part of `createdAt`, and `creationTime` is its `HH:mm:ss` clock |
| ContentModel.CreationParts | models/contentModel.js:49-55 | The ISO string of `createdAt` is `creationDate`, 'T', `creationTime`, then the milliseconds and 'Z' |
| ContentModel.CreationTimeReadsBack | models/contentModel.js:53-55 | `creationTime` is eight characters with ':' at 2 and 5, and reads back as the UTC hour, minute and second of `createdAt` |
| ContentController.SubjectTitle | controllers/contentController.js:12-21 | A record with a subject id gets that subject's title; an id with no subject behind it throws; a record without a subject gets nothing added |
| ContentController.PopulateAll | controllers/contentController.js:157 | Populating a list fails exactly when one record's subject lookup throws, and otherwise gives one populated record per id |
| ContentController.GetById | controllers/contentController.js:23-37 | A missing or soft-deleted record: 404. A subject lookup that throws: 400. Otherwise 200 with the populated record |
| ContentController.CreatedContent | controllers/contentController.js:51-59 | The created record's title is the request's when truthy, else "Untitled"; every other field is as the schema builds it |
| ContentController.Create | controllers/contentController.js:39-65 | A missing user id, content or type: 400 and no change. A type other than Summary or Exam: 400 and no change. Otherwise 201, and a valid record is stored under the fresh id, last in order |
| ContentController.Apply | controllers/contentController.js:72-76 | An update sets exactly the fields the body names, the creation time included, and keeps the rest |
| ContentController.ApplyNothing | controllers/contentController.js:72-76 | An empty update body leaves the record unchanged |
| ContentController.UpdateSkipsEnum | controllers/contentController.js:72-76 | The update bypasses the schema validators: a valid record can be given a type outside the enum |
| ContentController.UpdateItem | controllers/contentController.js:67-86 | A missing or soft-deleted record: 404 and no change. Otherwise the update is stored, and the reply is 200 with the populated record, or 400 when the subject lookup throws after the write |
| ContentController.SoftDeleted | controllers/contentController.js:94-97 | Soft delete sets the flag and the deletion time, and changes nothing else |
| ContentController.Restored | controllers/contentController.js:132-135 | Restore clears the flag and the deletion time, and changes nothing else |
| ContentController.DeleteThenRestore | controllers/contentController.js:88-147 | Restoring a soft-deleted live record gives back exactly the original |
| ContentController.DeleteItem | controllers/contentController.js:88-109 | A live record is flagged deleted at the current time, stays stored, and the reply is 200. A missing or already-deleted record: 404 and no change |
| ContentController.PermanentlyDeleteItem | controllers/contentController.js:112-124 | The record is removed whatever its flag, with 200; a missing id: 404; no other record changes |
| ContentController.RestoreItem | controllers/contentController.js:127-147 | A soft-deleted record is restored, with 200 and the record. Anything else: 404 "Deleted content not found" and no change |
| ContentController.GetContentByUserId | controllers/contentController.js:150-163 | The owner's live records (of the subject, when one is given), populated, in natural order; a throwing lookup fails the whole call with the fixed message |
| ContentController.GetContentByUserIdAndType | controllers/contentController.js:165-173 | The owner's live records of that type, populated, in natural order; a throwing lookup fails with the type-specific message |
| ContentController.View | controllers/contentController.js:182-195 | A shared record is shown with its author's public fields and its subject title when the subject exists |
| ContentController.ViewHidesOnlyOwner | controllers/contentController.js:190-195 | Two records by authors showing the same public fields look the same exactly when they differ at most in the owner id |
| ContentController.Views | controllers/contentController.js:182-197 | One view per record, in order |
| ContentController.GetCheckedContent | controllers/contentController.js:175-204 | The views of exactly the shared, non-deleted records, in natural order |
| ContentController.InsertNewestFirst | controllers/contentController.js:213 | Inserting into a newest-first list keeps it newest first and adds exactly the one id |
| ContentController.SortNewestFirst | controllers/contentController.js:213 | The sort by deletion time, descending, is a permutation and is newest first |
| ContentController.GetDeletedContent | controllers/contentController.js:207-220 | Exactly the user's soft-deleted records, newest deletion first |
| UsersController.ImageCheck | controllers/usersController.js:55-71 | Unchecked exactly when the picture is falsy or not a `data:image/` URL. Bad format exactly when it is one but not jpeg/png/gif/webp base64. Too large when three quarters of the payload length exceeds 5 MiB, accepted when it does not |
| UsersController.SizeBoundary | controllers/usersController.js:65-71 | With a well-formed prefix, a payload of up to 6990506 characters is accepted and one of 6990507 or more is too large (an estimate of exactly 5 MiB passes) |
| UsersController.PayloadIsAfterPrefix | controllers/usersController.js:65-66 | The measured payload of a well-formed data URL is exactly the text after its comma |
| UsersController.ApplyPatch | controllers/usersController.js:75-86 | The update sets exactly the `User` paths the body names and keeps the others, including the Google id and the 2FA fields |
| UsersController.UpdateItem | controllers/usersController.js:51-99 | A bad picture format: 400, and too large: 413. Then a body that sets a required path to an empty value: 400, before any lookup. A missing user: 404. A write refused by a unique index of the shared collection: 400. Otherwise 200 with the updated record stored, whichever schema created it. Nothing changes unless the reply is 200 |
| UsersController.Create | controllers/usersController.js:23-39 | The stored password is the hash of the body's password, whatever else the body holds; no password, or a write refused by the `User` validators or by a unique index over the whole `users` collection: 400 and no change; otherwise 201 and stored last |
| UsersController.CreatedPerson | controllers/usersController.js:25-32 | The created document holds the hash of the body's password and the body's email, username, full name and picture, with no Google id |
| UsersController.CreatedPasswordMatches | controllers/usersController.js:25-32 | The created user's hash matches exactly the attempts that share the body password's bcrypt key (the first 72 UTF-8 bytes); between passwords of at most 72 bytes, exactly the body's password |
| Scheduler.RecipientName | scheduler/notificationScheduler.js:29 | The full name, else the username, else the Hebrew word for "student"; never empty |
| Scheduler.Reminder | scheduler/notificationScheduler.js:22-29 | A reminder is sent exactly when the subject exists, the user exists and has an email, and it goes to that email with that name and the subject's title |
| Scheduler.AttemptsSnoc | scheduler/notificationScheduler.js:21-37 | Each further due notification adds its reminder attempt, if it has one |
| Scheduler.FailuresIsolated | scheduler/notificationScheduler.js:31-36 | Who is mailed does not depend on which sends fail |
| Scheduler.AttemptsAreReminders | scheduler/notificationScheduler.js:21-37 | Every attempt is the reminder of a due notification, with that notification's delivery outcome |
| Scheduler.OneAttemptPerNotification | scheduler/notificationScheduler.js:21-37 | Each notification yields at most one attempt |
| Scheduler.Tick | scheduler/notificationScheduler.js:9-38 | Corrected tick: the attempts are those of the notifications due at that weekday, hour and minute, in query order; each comes from a due notification with its reminder; no notification is mailed twice |
| Scheduler.SendReminders | scheduler/notificationScheduler.js:21-37 | The loop over the due notifications makes exactly the attempts of the specification function, when every stored id can be cast |
| Scheduler.AttemptsAsWritten | scheduler/notificationScheduler.js:21-26 | As written, the tick is cut short exactly when some due notification has a subject id, or (after its subject is found) a user id, that cannot be cast |
| Scheduler.AsWrittenSnoc | scheduler/notificationScheduler.js:21-37 | As written, each further notification either throws and ends the tick, or continues like the corrected tick |
| Scheduler.AbortSticks | scheduler/notificationScheduler.js:22-25 | Once the tick has thrown, no later notification is processed |
| Scheduler.TickAsWritten | scheduler/notificationScheduler.js:9-38 | The tick as written runs the loop as written over the due notifications |
| Scheduler.SendRemindersAsWritten | scheduler/notificationScheduler.js:21-37 | The loop as written computes exactly the outcome as written |
| Scheduler.AsWrittenAgreesWhenIdsCast | scheduler/notificationScheduler.js:21-37 | When every id casts, the tick as written and the corrected tick make the same attempts |
| Scheduler.MalformedIdStopsTick | scheduler/notificationScheduler.js:22 | A malformed subject id on the first due notification stops the reminder of a well-formed second one, which the corrected tick sends |
| Mail.Put | scheduler/send.js:40-46 | Writing a key into the token record sets that key and keeps every other |
| Mail.RefreshBoundary | scheduler/send.js:34 | With expiry e, no refresh at e - 30000, a refresh from e - 29999 on, and always after e |
| Mail.MergeFields | scheduler/send.js:40-46 | The saved record takes the new access token, expiry and type, and stores the new refresh token (else the old one) under `refreshAccessToken`; every other key is kept |
| Mail.RotatedRefreshTokenUnused | scheduler/send.js:40-46 | The `refresh_token` read back next time is still the old one: a rotated refresh token is never used |
| Mail.TokenFile.constructor | scheduler/send.js:8 | The file object holds the given record, or none when the file is missing |
| Mail.Authorize | scheduler/send.js:11-57 | A missing file fails with no change. A live token returns the stored credentials with no change. A due refresh that fails raises with no change. A successful refresh returns the new credentials and writes the merged record |
| Mail.EncodeSubject | scheduler/send.js:60-63 | The subject is an encoded-word: the UTF-8/B prefix and suffix around base64 text |
| Mail.SubjectRoundTrip | scheduler/send.js:60-63 | Decoding the encoded-word gives back exactly the subject |
| Mail.ReminderSubjectReads | scheduler/send.js:99 | A receiver reads the reminder's subject as the Hebrew prefix followed by the course name |
| Mail.MessageText | scheduler/send.js:66-74 | The message is the To, From, Subject and Content-Type header lines, a blank line and the HTML, joined by newlines |
| Mail.HeaderLines | scheduler/send.js:66-74 | With one-line headers, the message splits into exactly the four header lines, the blank line and the lines of the HTML |
| Mail.CreateRawEmail | scheduler/send.js:65-80 | The raw message uses only the URL-safe alphabet, and a receiver that re-pads and swaps the alphabet back decodes it to the UTF-8 bytes of the message |
| Mail.ReminderHtmlNames | scheduler/send.js:85-91 | The body names the student and the course at their places in the template |
| Mail.SendReminderEmail | scheduler/send.js:82-118 | A missing file or a failed refresh fails with that error. A send error is rethrown. Otherwise the raw reminder message is what is sent. The token file is unchanged unless a due refresh succeeds; then it holds the old record merged with the refreshed credentials, whether or not the send then fails |
| Base64.Encode | scheduler/send.js:61 | Standard base64 has length four times the number of started three-byte groups, and uses only the alphabet and '=' |
| Base64.Unpadded | scheduler/send.js:75-79 | The unpadded encoding has the exact length of the bits it carries, in alphabet characters only |
| Base64.EncodeGroup | scheduler/send.js:61 | Three bytes become four alphabet characters |
| Base64.Char | scheduler/send.js:61 | Every six-bit value has an alphabet character |
| Base64.Value | scheduler/send.js:61 | Reading an alphabet character back gives the value that writes it |
| Base64.ValueChar | scheduler/send.js:61 | Writing a value and reading it back gives the value |
| Base64.DecodeGroup | scheduler/send.js:61 | A decoded group holds one to three bytes |
| Base64.DecodeEncode | scheduler/send.js:61 | Decoding an encoding gives back exactly the bytes |
| Base64.ReplaceAll | scheduler/send.js:77-78 | A global replace changes exactly the occurrences of one character and keeps the length |
| Base64.TrimEnd | scheduler/send.js:79 | Trimming removes the whole run of '=' at the end and nothing else |
| Base64.ToUrlEncode | scheduler/send.js:75-79 | The URL-safe form of an encoding is the unpadded encoding with '+' and '/' swapped |
| Base64.FromUrlEncode | scheduler/send.js:75-79 | Re-padding the URL-safe form and swapping back gives the standard encoding |
| Base64.UrlRoundTrip | scheduler/send.js:75-79 | The URL-safe form uses only the URL-safe alphabet and decodes back to the bytes |
| Utf8.EncodeChar | scheduler/send.js:61 | A character takes one to four bytes, and one exactly when it is ASCII |
| Utf8.Encode | scheduler/send.js:75 | The encoding is at least as long as the text |
| Utf8.EncodeConcat | scheduler/send.js:75 | Encoding distributes over concatenation |
| Utf8.AsciiIdentity | scheduler/send.js:75 | ASCII text encodes to its own code units |
| Utf8.DecodeFirst | scheduler/send.js:61 | A decoded first character consumes one to four bytes of the input |
| Utf8.DecodeEncodeChar | scheduler/send.js:61 | The first character of an encoding decodes back, consuming exactly its bytes |
| Utf8.DecodeEncode | scheduler/send.js:61 | Decoding an encoding gives back exactly the text |
| Text.Split | controllers/authController.js:145 | Splitting gives at least one piece and no piece contains the separator |
| Text.SplitJoin | scheduler/send.js:74 | Splitting a join of separator-free pieces gives back the pieces |
| Text.JoinSplit | scheduler/send.js:74 | Joining the pieces of a split gives back the text |
| Text.NatToString | controllers/authController.js:40 | A number is written with at least one digit and only digits |
| Text.ParseNat | controllers/authController.js:92 | A text parses as a number exactly when it is a non-empty run of digits |
| Text.NatToStringRoundTrip | controllers/authController.js:40 | Parsing a written number gives it back |
| Text.NatToStringInjective | controllers/authController.js:40 | Different numbers are written differently |
| Text.LStrip | apiGpt/generate_json.py:271 | Leading stripping removes exactly the whitespace prefix |
| Text.RStrip | apiGpt/generate_json.py:271 | Trailing stripping removes exactly the whitespace suffix |
| Text.Strip | apiGpt/generate_json.py:271 | A stripped text neither starts nor ends with whitespace |
| Text.StripIsSlice | apiGpt/generate_json.py:271 | The stripped text is the middle of the original, with only whitespace on either side |
| Text.StripIdempotent | apiGpt/generate_summary_html_from_json.py:12 | Stripping twice is stripping once |
| Json.Keys | apiGpt/generate_test_html_from_json.py:10 | An object has one key per field |
| Json.Lookup | apiGpt/generate_test_html_from_json.py:16 | A key has a value exactly when it is one of the object's keys |
| Json.Put | apiGpt/generate_test_html_from_json.py:299 | `d[key] = v` sets the key, keeps every other key's value, keeps an existing key's place and puts a new key last |
| Json.PutKeepsDistinct | apiGpt/generate_test_html_from_json.py:299 | Assigning a key of an object whose keys are distinct leaves them distinct, as in a Python dict |
| Json.In | apiGpt/generate_test_html_from_json.py:20 | `in` on a dict tests its keys; on anything but a dict, list or string it raises TypeError |
| Json.GetItem | apiGpt/generate_test_html_from_json.py:20 | Indexing by a string succeeds exactly on a dict that holds the key |
| Json.Get | apiGpt/generate_test_html_from_json.py:43 | `.get` succeeds exactly on a dict |
| Json.First | apiGpt/generate_test_html_from_json.py:43 | `[0]` of a non-empty list is its first element, and succeeds only on a non-empty list or string |
| Json.Strs | apiGpt/generate_json.py:290 | A list of strings as JSON, element by element |
| GenerateJson.FixJsonQuotes | apiGpt/generate_json.py:310-345 | The loop computes exactly the character-by-character specification function of the quote fixer |
| GenerateJson.QuoteStep | apiGpt/generate_json.py:331-343 | One unescaped character contributes its piece and the new string state, as the specification function says |
| GenerateJson.NoSingleQuoteUnchanged | apiGpt/generate_json.py:310-345 | Text without a single quote comes back unchanged |
| GenerateJson.NoBareSingleQuotes | apiGpt/generate_json.py:332-341 | In the output every single quote is preceded by a backslash, and the output never starts with one |
| GenerateJson.FixedLength | apiGpt/generate_json.py:338-339 | The output is longer than the input by exactly the number of single quotes escaped inside double-quoted strings |
| GenerateJson.GetPrompt | apiGpt/generate_json.py:66-86 | "summary" gives the summary prompt; "test" succeeds exactly when params is a dict and names its two counts; anything else raises ValueError naming the type |
| GenerateJson.DigitPrefix | apiGpt/generate_json.py:80 | The longest run of leading digits |
| GenerateJson.PromptCountsReadBack | apiGpt/generate_json.py:77-80 | The counts written into the test prompt read back from it |
| GenerateJson.DefaultCounts | apiGpt/generate_json.py:78-79 | Without parameters the test prompt asks for 8 multiple-choice and 3 open questions |
| GenerateJson.AmericanAnswerAmongOptions | apiGpt/generate_json.py:286-292 | A multiple-choice question built from options has its correct answer among them |
| GenerateJson.SummaryFallbackKeys | apiGpt/generate_json.py:509-513 | The summary fallback has exactly the keys `summary` and `subjects` |
| GenerateJson.TestFallbackQuestion | apiGpt/generate_json.py:514-526 | The test fallback has one question, of type american, whose correct answer is among its answers |
| GenerateJson.SkipSpaces | apiGpt/generate_json.py:268 | `\s*` consumes the longest run of whitespace |
| GenerateJson.SkipDigits | apiGpt/generate_json.py:268 | `\d+` consumes the longest run of digits |
| GenerateJson.SeparatorAt | apiGpt/generate_json.py:268 | A separator match starts with a newline and spans at least a digit and a '.' or ')' |
| GenerateJson.SplitBlocksFrom | apiGpt/generate_json.py:268 | A split always gives at least one block |
| GenerateJson.SingleLineOneBlock | apiGpt/generate_json.py:268 | Text without a newline is a single block |
| GenerateJson.OptionOf | apiGpt/generate_json.py:283-284 | A line yields an option exactly when it is an option line, and the option is its text after the label |
| GenerateJson.Collect | apiGpt/generate_json.py:282-284 | Collecting options never yields more than there are lines |
| GenerateJson.CollectNonEmpty | apiGpt/generate_json.py:282-286 | Some option is collected exactly when some line yields one |
| GenerateJson.OptionsIffOptionLine | apiGpt/generate_json.py:282-286 | A block has options exactly when one of its lines after the first is an option line |
| GenerateJson.FirstLineNotBlank | apiGpt/generate_json.py:279 | A block that starts with a non-space has a non-empty question text |
| GenerateJson.LongBlockYieldsQuestion | apiGpt/generate_json.py:270-297 | A block yields a question exactly when its stripped text has 30 characters or more. The question is its first line, and it is american exactly when it has options |
| GenerateJson.Questions | apiGpt/generate_json.py:270-297 | At most one question per block |
| GenerateJson.QuestionPerLongBlock | apiGpt/generate_json.py:270-297 | Exactly one question per long block |
| GenerateJson.BlockAnswerAmongOptions | apiGpt/generate_json.py:286-292 | An american question from a block has its correct answer among its answers |
| GenerateJson.ExtractedAnswersAmongOptions | apiGpt/generate_json.py:270-297 | Every american question extracted from a text has its correct answer among its answers |
| GenerateJson.CollectOptions | apiGpt/generate_json.py:282-284 | The loop collects exactly the options of the specification function |
| GenerateJson.QuestionFromBlock | apiGpt/generate_json.py:271-297 | One block becomes exactly the question of the specification function, or none |
| GenerateJson.AddBlockQuestion | apiGpt/generate_json.py:270-297 | One loop step extends the questions of the blocks so far by the next block's |
| GenerateJson.QuestionsSnoc | apiGpt/generate_json.py:270-297 | The questions of one more block are the earlier ones plus that block's |
| GenerateJson.ExtractQuestions | apiGpt/generate_json.py:270-297 | The loop over the blocks computes exactly the questions of the specification function |
| GenerateJson.BuildFromText | apiGpt/generate_json.py:265-307 | For a test with at least one extracted question, the extracted test with its fixed title and description; otherwise the fallback for the type |
| ExamRepair.PutMissing | apiGpt/generate_test_html_from_json.py:297-303 | Adding a missing key sets it and keeps every existing key's value; an existing key is left alone |
| ExamRepair.RepairQuestion | apiGpt/generate_test_html_from_json.py:292-311 | A non-dict entry is left as it is |
| ExamRepair.RepairQuestionShape | apiGpt/generate_test_html_from_json.py:297-311 | A repaired dict has a question and a type, and an american one has truthy answers and a correct answer. It keeps every key and every value except falsy answers of an american question |
| ExamRepair.RepairQuestionFails | apiGpt/generate_test_html_from_json.py:309-311 | The repair raises exactly for an american dict without a correct answer whose answers are truthy but neither a list nor a string |
| ExamRepair.DefaultCorrectAnswer | apiGpt/generate_test_html_from_json.py:309-311 | An american question with a non-empty answer list and no correct answer gets its first answer |
| ExamRepair.RepairQuestions | apiGpt/generate_test_html_from_json.py:292-311 | A successful pass keeps the number of entries |
| ExamRepair.RepairChoice | apiGpt/generate_test_html_from_json.py:318-329 | A non-dict is left alone; a dict gets a question and some options and keeps every value it had |
| ExamRepair.RepairChoices | apiGpt/generate_test_html_from_json.py:318-329 | Each entry is repaired in place, by its own index |
| ExamRepair.IndexOf | apiGpt/generate_test_html_from_json.py:332-333 | The position of a key exactly when the object has it, holding its value |
| ExamRepair.QuestionsStep | apiGpt/generate_test_html_from_json.py:288 | Without a `questions` list the fields are left alone |
| ExamRepair.QuestionsStepKeeps | apiGpt/generate_test_html_from_json.py:288-311 | The questions pass changes no other key, drops no key, and leaves a list a list |
| ExamRepair.ChoicesStep | apiGpt/generate_test_html_from_json.py:314 | Without a `multiple_choice` list the fields are left alone |
| ExamRepair.ChoicesStepKeeps | apiGpt/generate_test_html_from_json.py:314-329 | The multiple-choice pass changes no other key, drops no key, and leaves a list a list |
| ExamRepair.Repair | apiGpt/generate_test_html_from_json.py:271-348 | Falsy data becomes the minimal exam; truthy data that is not a dict raises TypeError; a result is always a dict |
| ExamRepair.RepairFields | apiGpt/generate_test_html_from_json.py:288-348 | The passes over a dict's fields yield a dict when they succeed |
| ExamRepair.RepairShape | apiGpt/generate_test_html_from_json.py:284-348 | A repaired exam always has a questions list, a multiple-choice list or a nested exam dict, and keeps every key of a non-empty dict |
| ExamRepair.MinimalShape | apiGpt/generate_test_html_from_json.py:275-282 | The minimal exam has a multiple-choice list |
| ExamRepair.ValidateAndRepair | apiGpt/generate_test_html_from_json.py:271-348 | The loops compute exactly the repair of the specification function, recursing into the nested exam |
| ExamRepair.RepairQuestionList | apiGpt/generate_test_html_from_json.py:292-311 | The questions loop computes exactly its specification function, stopping at the first error |
| ExamRepair.RepairChoiceList | apiGpt/generate_test_html_from_json.py:318-329 | The multiple-choice loop computes exactly its specification function |
| ExamRepair.ErrorStops | apiGpt/generate_test_html_from_json.py:292-311 | Once an entry raises, later entries do not matter |
| ExamRepair.RepairQuestionsPointwise | apiGpt/generate_test_html_from_json.py:292-311 | A successful pass repairs each entry by its own index |
| ExamRepair.PutExisting | apiGpt/generate_test_html_from_json.py:333 | Writing back a key's own value changes nothing |
| ExamRepair.ShapedQuestionFixed | apiGpt/generate_test_html_from_json.py:292-311 | A question that already has every field the pass adds is left unchanged |
| ExamRepair.FixedQuestionsFixed | apiGpt/generate_test_html_from_json.py:292-311 | A list whose entries are each left unchanged is left unchanged |
| ExamRepair.RepairQuestionsIdempotent | apiGpt/generate_test_html_from_json.py:292-311 | Repairing repaired questions changes nothing |
| ExamRepair.RepairChoicesIdempotent | apiGpt/generate_test_html_from_json.py:318-329 | Repairing repaired multiple-choice entries changes nothing |
| ExamRepair.MinimalFixed | apiGpt/generate_test_html_from_json.py:275-282 | The minimal exam repairs to itself |
| ExamRepair.FixedFieldsFixed | apiGpt/generate_test_html_from_json.py:284-348 | A non-empty dict with question structure whose lists and nested exam are each left unchanged repairs to itself |
| ExamRepair.QuestionsStepUnchanged | apiGpt/generate_test_html_from_json.py:288-311 | A questions list that repairs to itself leaves the fields unchanged |
| ExamRepair.ChoicesStepUnchanged | apiGpt/generate_test_html_from_json.py:314-329 | A multiple-choice list that repairs to itself leaves the fields unchanged |
| ExamRepair.QuestionsStepFixed | apiGpt/generate_test_html_from_json.py:288-311 | After the questions pass, the questions list repairs to itself |
| ExamRepair.ChoicesStepFixed | apiGpt/generate_test_html_from_json.py:314-329 | After the multiple-choice pass, the list repairs to itself |
| ExamRepair.DefaultQuestionShaped | apiGpt/generate_test_html_from_json.py:339-346 | The default question has every field the pass adds |
| ExamRepair.DefaultQuestionFixed | apiGpt/generate_test_html_from_json.py:339-346 | The default question list repairs to itself |
| ExamRepair.RepairIdempotent | apiGpt/generate_test_html_from_json.py:271-348 | Repairing a repaired exam gives it back unchanged |
| TestHtml.SelectQuestions | apiGpt/generate_test_html_from_json.py:13-28 | A top-level `questions` list is taken as it is; with neither `questions` nor `exam` there are none |
| TestHtml.NormaliseEntry | apiGpt/generate_test_html_from_json.py:35-49 | An entry goes to the multiple-choice list only as an american dict with question and answers, to the open list only as an open dict, and raises only as a dict with a type |
| TestHtml.ChoiceEntryFields | apiGpt/generate_test_html_from_json.py:40-44 | A normalised multiple-choice entry keeps the question, takes the answers as options, and the correct answer or else the first answer as the answer |
| TestHtml.OpenEntryFields | apiGpt/generate_test_html_from_json.py:46-49 | A normalised open entry keeps the question, and the answer or else "See solution guide" |
| TestHtml.OpenWithoutQuestion | apiGpt/generate_test_html_from_json.py:45-47 | An open entry without a question raises KeyError |
| TestHtml.Positions | apiGpt/generate_test_html_from_json.py:35 | The selected positions are in range and satisfy the test |
| TestHtml.PositionsExact | apiGpt/generate_test_html_from_json.py:35 | The positions are increasing and include every position that satisfies the test |
| TestHtml.NormaliseStep | apiGpt/generate_test_html_from_json.py:35-49 | One more entry appends its normalised form to the list it goes to |
| TestHtml.ChoicesInOrder | apiGpt/generate_test_html_from_json.py:35-44 | The multiple-choice list is the normalised american entries, in their original order |
| TestHtml.OpensInOrder | apiGpt/generate_test_html_from_json.py:35-49 | The open list is the normalised open entries, in their original order |
| TestHtml.NormaliseErrorStops | apiGpt/generate_test_html_from_json.py:35-49 | Once an entry raises, later entries do not matter |
| TestHtml.NormaliseQuestions | apiGpt/generate_test_html_from_json.py:31-49 | The loop computes exactly the normalisation of the specification function |
| TestHtml.CarryOver | apiGpt/generate_test_html_from_json.py:57-61 | Carrying a key over copies it from the source when present and touches no other key |
| TestHtml.Prepared | apiGpt/generate_test_html_from_json.py:31-61 | Corrected preparation: a successful result is a dict |
| TestHtml.TitleLostAsWritten | apiGpt/generate_test_html_from_json.py:52-61 | As written, any exam whose questions are normalised loses its title and description: the page shows the default heading and no description |
| TestHtml.TitleLossExample | apiGpt/generate_test_html_from_json.py:52-61 | A titled exam shows the default heading as written, and its own title "Biology" when corrected |
| TestHtml.PreparedKeepsTitle | apiGpt/generate_test_html_from_json.py:57-61 | Corrected, the page heading is the exam's title and the description its description, whenever they are present |
| TestHtml.Iterate | apiGpt/generate_test_html_from_json.py:170 | Iterating a list gives its items; iterating None, a boolean or a number raises |
| TestHtml.OptionsOf | apiGpt/generate_test_html_from_json.py:172-176 | A dict's options can always be read; only a dict has any |
| TestHtml.Texts | apiGpt/generate_test_html_from_json.py:195-196 | Each option is written with `str()`, in order |
| TestHtml.SwapKeeps | apiGpt/generate_test_html_from_json.py:184 | Swapping two options keeps the multiset of options and of their texts |
| TestHtml.Shuffle | apiGpt/generate_test_html_from_json.py:184 | The in-place shuffle of the options array is a permutation, of the options and of their texts |
| TestHtml.RenderChoice | apiGpt/generate_test_html_from_json.py:170-203 | A question gets past the loop exactly when its options can be read and, when it has some, it has a question text. It renders exactly when it has options, as its question, a permutation of its options, and its answer, else correct answer, else first shuffled option |
| TestHtml.RenderChoices | apiGpt/generate_test_html_from_json.py:164-203 | The loop succeeds exactly when every question gets past it, and renders the questions with options, in order, each with its index |
| TestHtml.OpenOnly | apiGpt/generate_test_html_from_json.py:214-215 | The comprehension succeeds exactly when every entry is a dict, and keeps only entries of type open |
| TestHtml.RenderOpen | apiGpt/generate_test_html_from_json.py:222-239 | One open block per entry, in order, never an error |
| TestHtml.OpenBlockShows | apiGpt/generate_test_html_from_json.py:223-238 | Block k carries the 0-based `enumerate` index k of its `open-answer{index}` id. A dict with a string question shows that question, and its string answer or else "See solution guide". A plain string entry shows itself with "See solution guide" |
| TestHtml.GenerateHtml | apiGpt/generate_test_html_from_json.py:8-249 | The page is built exactly when preparation, both lists and every multiple-choice question succeed. It has the exam's heading and description, the rendered multiple-choice questions in order, and one open block per open question |
| SummaryHtml.HasHebrew | apiGpt/generate_summary_html_from_json.py:9 | True exactly when some character is in the Hebrew block |
| SummaryHtml.DetectDirection | apiGpt/generate_summary_html_from_json.py:8-9 | "rtl" exactly when the text has a character of the Hebrew block, "ltr" otherwise |
| SummaryHtml.IsProbablyCode | apiGpt/generate_summary_html_from_json.py:11-19 | Only multi-line text is taken for code |
| SummaryHtml.CodeGuessIgnoresPadding | apiGpt/generate_summary_html_from_json.py:12 | The code guess does not depend on surrounding whitespace |
| SummaryHtml.InStripped | apiGpt/generate_summary_html_from_json.py:12 | A character of the stripped text is in the original |
| SummaryHtml.ParagraphOpening | apiGpt/generate_summary_html_from_json.py:57 | A paragraph opens right-to-left exactly when its text has Hebrew, left-to-right otherwise |
| SummaryHtml.SingleLineIsNotCode | apiGpt/generate_summary_html_from_json.py:46-57 | A value whose text has no newline is never a code block |
| SummaryHtml.ParagraphDirection | apiGpt/generate_summary_html_from_json.py:46-57 | A value shown as a paragraph is marked rtl when its stripped text has Hebrew, and ltr when it has none |
| SummaryHtml.CodeBlock | apiGpt/generate_summary_html_from_json.py:53-55 | A value that looks like code is shown as its stripped text in a code block, and its text had a newline |
| SummaryHtml.ListItems | apiGpt/generate_summary_html_from_json.py:23-24 | One list item per value |
| SummaryHtml.ListItemsInOrder | apiGpt/generate_summary_html_from_json.py:23-24 | Item k is value k rendered in an `<li>` |
| SummaryHtml.FormatListToHtml | apiGpt/generate_summary_html_from_json.py:21-26 | The loop builds an unordered list of the items of the specification function, opening with `<ul>` and closing with `</ul>` |
| SummaryHtml.KeepAnchorChars | apiGpt/generate_summary_html_from_json.py:61 | Only word characters and whitespace remain, and text of word characters only is kept whole |
| SummaryHtml.CollapseSpaces | apiGpt/generate_summary_html_from_json.py:62 | No whitespace remains after runs of whitespace become '_' |
| SummaryHtml.CollapseKeepsWordChars | apiGpt/generate_summary_html_from_json.py:62 | Text of word characters and whitespace collapses to word characters only |
| SummaryHtml.CollapseWithoutSpaces | apiGpt/generate_summary_html_from_json.py:62 | Text without whitespace is left as it is |
| SummaryHtml.SanitizeAnchor | apiGpt/generate_summary_html_from_json.py:60-63 | An anchor holds only word characters and no whitespace |
| SummaryHtml.SanitizeIdempotent | apiGpt/generate_summary_html_from_json.py:60-63 | Sanitising an anchor again changes nothing |
| SummaryHtml.TocEntries | apiGpt/generate_summary_html_from_json.py:186-188 | One table-of-contents entry per key |
| SummaryHtml.Sections | apiGpt/generate_summary_html_from_json.py:186-191 | One section per key |
| SummaryHtml.TocInKeyOrder | apiGpt/generate_summary_html_from_json.py:186-188 | Entry k links to the anchor of key k and shows that key |
| SummaryHtml.SectionsInKeyOrder | apiGpt/generate_summary_html_from_json.py:186-191 | Section k carries the anchor of key k, its heading and its formatted value |
| SummaryHtml.EntriesSnoc | apiGpt/generate_summary_html_from_json.py:186-191 | One more key adds its entry and its section |
| SummaryHtml.JsonToHtml | apiGpt/generate_summary_html_from_json.py:65-194 | A non-dict raises ValueError "Input data must be a dictionary"; a dict gives the head, the table of contents and the sections in key order, and the closing tags |
| SummaryHtml.UpToQuote | apiGpt/generate_summary_html_from_json.py:188-189 | Reading up to the closing quote gives a quote-free prefix followed by a quote |
| SummaryHtml.QuotedAnchor | apiGpt/generate_summary_html_from_json.py:188-189 | Reading the quoted attribute after a prefix gives back the anchor |
| SummaryHtml.LinkTargetsItsSection | apiGpt/generate_summary_html_from_json.py:188-189 | Each table-of-contents link targets the id of its own section |

## Left out

- I/O: HTTP requests and responses, and the Mongo driver's networking and
  concurrency. The model keeps the status codes and reply bodies. Two
  concurrent requests racing on the same document are not modelled.
- File writes and console logging: the written HTML and token files, and all
  `print` and `console` output.
- The page templates' fixed HTML, CSS and JavaScript text: the pages are
  modelled by their structure. The reminder mail's literal HTML is kept.
- Floats: all numbers are integers.
- `str()` of a list or dict is a placeholder text (`[...]`, `{...}`), not
  Python's `repr`. `json.dumps` is the `dumps` parameter. The `head` of the
  summary page is a parameter.
- `\w` and `\d` cover ASCII and the Hebrew letters only, not every Unicode
  script.
- Lone surrogates are not chars in Dafny, so UTF-8 encoding of them is not
  modelled.
- RFC 2047 line-length limits on encoded-words are not applied. The source
  does not apply them either.
- `JSON.parse` failures on `token.json`, and a non-numeric `expiry_date`.
- Mail.SendReminderEmail: returns the raw message sent, not the Gmail API's
  `res.data`, because the API's answer is outside the model.
- TestHtml.Shuffle: states a permutation, not a uniformly random order,
  because the random source is the `draw` parameter.
- TestHtml.GenerateHtml: uses the corrected title carry-over (see Findings).
- GoogleAuth.GoogleCallback: assumes `generateToken`'s result is awaited. The
  source also misses `await`, so even an exported `generateToken` would give a
  Promise whose `refreshToken` is undefined.
- In-place mutation and aliasing of the question dicts in
  `validate_and_repair_json` and `generate_html`: the repaired or normalised
  dicts are new values.
- `generate_json.py`:
  - the `main`/argparse entry points and the PDF text extraction;
  - the calls to the OpenAI API;
  - the regex strategies of `extract_and_parse_json` and its JSON-decode
    fallback.
  These are foreign calls or parsing of model output; the fallback builder
  they end in is modelled.
- `format_dict_to_html` and `format_numbered_string` in
  `generate_summary_html_from_json.py`: nothing calls them.
- `getById` and `deleteItem` of `controllers/usersController.js`: they are
  outside the modelled profile flows (picture guard and create).
- Mongo's cast errors for malformed ids, except in the scheduler, where they
  matter (the `castable` parameter).
- The 2FA fields are defaults only: no code path sets them. A document
  created through `User` is given the same defaults here that `Users` applies
  when it reads one; no modelled code reads them.
- AuthController.GenerateToken: the lifetimes are the seconds that
  jsonwebtoken derives from `TOKEN_EXPIRES` and `REFRESH_TOKEN_EXPIRES`. A
  lifetime of `None` stands for every value from which jsonwebtoken derives
  none: an unset variable, an empty string, or a string that `ms` cannot
  parse (such as "abc"). Each of these makes signing throw, and that throw is
  modelled. How `ms` turns a parsable string into a length is not modelled;
  for example, a bare "3600" means 3600 milliseconds.
- Store.Collection.FindFirst: an unsorted query's results are taken in
  insertion order. MongoDB promises no order without `sort`, and a query
  answered from an index follows that index.
- Store.Collection.FindAll: takes results in insertion order, for the same
  reason as `FindFirst`.
- AuthController.Login: picks the first match in insertion order. The source's
  `$or` over the email and username indexes (controllers/authController.js:56-61)
  may return an email match ahead of an earlier-inserted username match.
- Json objects are assumed to have distinct keys, as a Python dict does.
  `json.load` of a text with a repeated key keeps one entry with the last
  value, and that collapsing is not modelled. `Json.PutKeepsDistinct` shows
  that dict assignment keeps the keys distinct.

## Findings

| source | as written | input that shows it | evidently intended | confidence | as-written member | corrected member |
|---|---|---|---|---|---|---|
| routes/authRoute.js:124 | calls `authController.generateToken`, which the default export (controllers/authController.js:162) does not contain, so the call throws and the handler redirects to the error page | any Google sign-in with `TOKEN_SECRET` set, once the routers register (for example with `authMiddleware` imported by name; as written the server does not start) | issue a token pair, push the refresh token and redirect with the access token | not executed | GoogleAuth.GoogleCallbackAsWritten, GoogleAuth.CallbackWiringLosesSessions | GoogleAuth.GoogleCallback |
| scheduler/notificationScheduler.js:22,25 | the subject and user lookups sit outside the `try`, so a malformed id throws out of the loop and the rest of the tick is skipped | two due notifications, the first with subject id "bad" that cannot be cast, the second well formed | skip the bad notification and still send the other reminders | not executed | Scheduler.TickAsWritten, Scheduler.MalformedIdStopsTick | Scheduler.Tick |
| apiGpt/generate_test_html_from_json.py:52-61 | `data` is replaced by the new two-list dict before the title and description are tested, so they are tested on the new dict and always lost | `{"title": "Biology", "questions": [{"type": "open", "question": "Why?"}]}` | carry the exam's title and description over to the page | not executed | TestHtml.TitleLostAsWritten, TestHtml.TitleLossExample | TestHtml.PreparedKeepsTitle, TestHtml.Prepared |
