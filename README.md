# Mtaa Space backend, modelled in Dafny

Mtaa Space is a rental-listing backend: agents publish properties, renters
save favorites and send inquiries, and every record lives in a MongoDB
collection behind a Mongoose schema. This project models the controllers'
rules over four collections (properties, favorites, inquiries, users), the
three schemas that guard them, the required-field middleware and the
placeholder property router that the server actually mounts.

How the model is built:

- **Collections** are sequences in insertion order. Each record carries an
  `id` and a `createdAt` drawn from one counter (`clock`), so insertion
  order, id order and creation order agree. "Newest first" is the reverse
  of a filtered table, and the model proves that it is strictly
  decreasing in `createdAt`.
- **Stores.** The three collections that handlers write to are classes:
  `PropertyStore`, `FavoriteStore` and `InquiryStore`.
  - Each store's `Valid()` invariant holds the ordering facts.
    - The property store also requires every stored listing to satisfy its schema.
    - The favorite store also requires that no two favorites share a (user, property) pair.
    - The inquiry store also requires every stored inquiry to satisfy its schema.
  - Each write method states the reply and the whole new table for every outcome.
- **Reads** are functions of the table: listing pages, featured listings, an
  agent's listings, a user's favorites, and an agent's or user's inquiries.
- **Schema validation** follows Mongoose:
  - every path reports its first broken rule, `required` first;
  - setters (`trim`, `lowercase`) run before validators;
  - `required` refuses `""` on a String path but accepts `0` on a Number path;
  - update validators check only the paths the update sets.
  - `minlength` and `maxlength` count UTF-16 code units, as JavaScript's
    `length` does, so a character above U+FFFF counts twice.

  Each schema's `Violations` is paired with a plain-terms `Acceptable` and
  proved equivalent to it.
- **Email pattern.** The pattern `^\w+([.-]?\w+)*@\w+([.-]?\w+)*(\.\w{2,3})+$`
  is written twice: sub-expression by sub-expression (`MatchesPattern`) and
  as a left-to-right scanner (`IsEmail`). The two are proved to accept
  the same strings.
- **Outside inputs.** The clock, the ISO time string and the requester are
  parameters. Authentication (`protect`) and the agent-only guard
  (`authorize('agent')`) are preconditions of the handlers.

Modules: `Common` (outcomes and status codes), `Seqs`, `Text`, `Js` (request
values and truthiness), `Email`, `Schema` (the validator kinds), one module
per schema (`PropertySchema`, `InquirySchema`, `UserSchema`), one per
controller (`PropertyController`, `FavoriteController`,
`InquiryController`), `Validation` and `PropertyRoutes`.

## Model

| member | source | states |
|---|---|---|
| Text.Trim | models/Property.js:11 | the `trim` setter: the result is a slice of the input with only white space cut from either side, has no surrounding white space, is empty exactly when the input is all white space, and leaves an already-trimmed string alone |
| Text.TrimIdempotent | models/User.js:12 | trimming twice is trimming once |
| Text.Lower | models/User.js:19 | the `lowercase` setter keeps the length and lower-cases each character |
| Text.LowerIdempotent | models/User.js:19 | a lower-cased address has no upper-case letter and lower-casing it again changes nothing |
| Text.ContainsIgnoringCase | controllers/propertyController.js:14 | the `$regex` with option `i`: true exactly when the lower-cased needle occurs in the lower-cased text; an empty needle always matches |
| Text.Contains | controllers/propertyController.js:13-15 | true exactly when the needle occurs at some position of the text |
| Text.ContainsIgnoringCaseIsCaseBlind | controllers/propertyController.js:14 | the case-insensitive location test gives the same answer whatever the case of either side |
| Text.ExactOccurrenceMatches | controllers/propertyController.js:14 | a listing whose location contains the filter text verbatim is matched |
| Text.Decimal | routes/properties.js:40 | the decimal form of a number is a non-empty string of digits with no leading zero except for 0 itself |
| Text.Utf16Length | models/Property.js:12 | JavaScript's `length`: one code unit per character up to U+FFFF and two above it, so between the character count and twice it, zero only for the empty string |
| Text.Utf16LengthAppend | models/Property.js:12 | `length` adds up over concatenation, which with the one-character case fixes it on every string |
| Text.MixedLength | models/Property.js:12 | `"a"` followed by U+1F3E0 has `length` 3 |
| Text.BmpLength | models/Property.js:12 | on text without characters above U+FFFF, `length` is the character count |
| Text.AstralLength | models/Property.js:12 | `n` copies of a character above U+FFFF have `length` `2n` |
| Text.DecimalRoundTrip | routes/properties.js:40 | the decimal digits written for the clock reading read back as that reading |
| Email.MatchesPattern | models/User.js:21 | the anchored pattern, sub-expression by sub-expression; a match contains `@` and has at least six characters |
| Email.IsEmail | models/User.js:21 | the scanner: an accepted address has exactly one `@`, holds only word characters, dots, hyphens and that `@`, starts and ends with a word character and has at least six characters |
| Email.NameToIsName | models/User.js:21 | a string matching `\w+([.-]?\w+)*` is accepted by the scanner's name test |
| Email.IsNameToName | models/User.js:21 | a string accepted by the scanner's name test matches `\w+([.-]?\w+)*` |
| Email.NameIff | models/User.js:21 | the name sub-pattern and the name scanner accept the same strings |
| Email.HostToIsHost | models/User.js:21 | a match of `\w+([.-]?\w+)*(\.\w{2,3})+` is a name ending in a dot and two or three word characters |
| Email.IsHostToHost | models/User.js:21 | a name ending in a dot and two or three word characters matches the host sub-pattern |
| Email.HostIff | models/User.js:21 | both directions of the host equivalence |
| Email.MatchesPatternToIsEmail | models/inquiry.js:12-15 | every address the pattern matches is accepted by the scanner, whose `@` is the first one |
| Email.IsEmailToMatchesPattern | models/inquiry.js:12-15 | every address the scanner accepts matches the pattern |
| Email.PatternIff | models/User.js:20-23 | the regular expression and the scanner accept exactly the same strings |
| Email.PatternNonEmpty | models/inquiry.js:11-15 | the pattern never matches the empty string, so `required` and `match` agree on it |
| Schema.StringRule | models/Property.js:8-26 | a String path passes exactly when its value is present (or `required` does not apply to an update), non-empty, and within `minlength` and `maxlength` counted in UTF-16 code units |
| Schema.NumberRule | models/Property.js:27-41 | a Number path passes exactly when its value is present (or the update leaves it out) and at least the `min`; 0 passes `required` |
| Schema.PresenceRule | models/Property.js:68-72 | a required reference passes exactly when present, or when an update leaves it out |
| Schema.EnumRule | models/Property.js:42-46 | an enum path passes exactly when it is absent or one of the listed values |
| Schema.EmailRule | models/inquiry.js:9-16 | an email path passes exactly when present, non-empty and matching the address pattern |
| Schema.At | models/Property.js:7-75 | a path's report is empty exactly when its rule passed, and names only that path |
| Schema.TrimOpt | models/inquiry.js:17-20 | the `trim` setter on an optional path: absent stays absent, present is trimmed |
| PropertySchema.ParseKind | models/Property.js:42-46 | a string names a kind exactly when it is `apartment`, `studio`, `house` or `condo`, and then it is that kind's name |
| PropertySchema.ParseKindName | models/Property.js:44 | each kind's name parses back to that kind |
| PropertySchema.KindNamesAreParsed | models/Property.js:44 | the enum list and the parser agree |
| PropertySchema.Violations | models/Property.js:8-72 | every report names one of the nine validated paths |
| PropertySchema.ViolationsReference | models/Property.js:8-72 | the validators report nothing exactly when title (trimmed, at most 100 code units), description (at most 1000), price and location are non-empty, bedrooms, bathrooms and area are at least 0, the type is in the enum and the agent is set |
| PropertySchema.AstralTitleTooLong | models/Property.js:12 | sixty characters above U+FFFF are a title of length 120, which `maxlength` refuses |
| PropertySchema.Create | models/Property.js:7-75 | `Property.create` succeeds exactly when nothing is reported, returns every report otherwise, and on success stores every given path (title trimmed), defaults type `apartment`, empty amenities and images, lease term `12 months`, available true and featured false, and yields a well-formed listing |
| PropertySchema.Merge | controllers/propertyController.js:117-120 | every path the update sets is written (title trimmed), every other path keeps its value, and the id and creation time stay |
| PropertySchema.ApplyUpdate | controllers/propertyController.js:117-120 | `findByIdAndUpdate` with `runValidators` succeeds exactly when the set paths pass their rules; no `required` check and no default applies; the agent may be overwritten |
| PropertySchema.UpdateKeepsWellFormed | controllers/propertyController.js:117-120 | an accepted update of a well-formed listing leaves it well-formed |
| PropertySchema.EmptyUpdateIsIdentity | controllers/propertyController.js:117-120 | an update that sets nothing returns the listing unchanged |
| InquirySchema.ParseStatus | models/inquiry.js:35-39 | a string names a status exactly when it is `new`, `contacted`, `viewing_scheduled` or `closed` |
| InquirySchema.ParseStatusName | models/inquiry.js:37 | each status name parses back to that status |
| InquirySchema.Violations | models/inquiry.js:4-39 | every report names one of the six validated paths |
| InquirySchema.ViolationsReference | models/inquiry.js:4-39 | nothing is reported exactly when the trimmed name and the message are non-empty, the email matches, property and agent are set and the status is in the enum |
| InquirySchema.Create | models/inquiry.js:3-42 | `Inquiry.create` succeeds exactly when the body is acceptable; on success name and phone are trimmed, the other paths are copied, and the status is the given one or `new` |
| UserSchema.ParseRole | models/User.js:31-35 | a string names a role exactly when it is `renter` or `agent` |
| UserSchema.ParseRoleName | models/User.js:33 | each role name parses back to that role |
| UserSchema.LowerOpt | models/User.js:19 | the `lowercase` setter on an optional path |
| UserSchema.EmailRuleAccepts | models/User.js:15-24 | the email path passes exactly when the lower-cased address matches the pattern |
| UserSchema.Violations | models/User.js:9-35 | every report names one of the four validated paths |
| UserSchema.ViolationsReference | models/User.js:9-35 | nothing is reported exactly when the trimmed name is non-empty and at most 50 code units, the lower-cased email matches, the password has at least 6 code units and the role is in the enum |
| UserSchema.AstralPasswordLongEnough | models/User.js:28 | three characters above U+FFFF are a password of length 6, which `minlength` accepts |
| UserSchema.Create | models/User.js:8-46 | account creation succeeds exactly when the body is acceptable; on success the name is trimmed, the email lower-cased, the role defaults to `renter`, the avatar to the placeholder URL, and the account is well-formed |
| UserSchema.View | models/User.js:29 | a default read returns every stored path except the password |
| UserSchema.ViewHidesPassword | models/User.js:29 | two accounts that differ only in their password read the same |
| UserSchema.EmailTaken | models/User.js:18 | true exactly when some stored account has this address |
| UserSchema.Register | models/User.js:15-24 | validation runs first (refused with the reports exactly when the body is not acceptable); a valid body is refused with a duplicate-key error exactly when the lower-cased address is taken; otherwise the created account is appended |
| UserSchema.RegisterKeepsEmailsUnique | models/User.js:18 | registration never puts two accounts on one address |
| Js.Truthy | middleware/validation.js:4 | falsy exactly on `undefined`, `null`, `false`, `0` and `""` |
| Js.Or | routes/properties.js:41-47 | `a \|\| b` is `a` when `a` is truthy and `b` otherwise, and is truthy exactly when either is |
| Validation.ValidateProperty | middleware/validation.js:1-12 | `next()` is called exactly when all seven fields are truthy; otherwise the answer is 400 with success false |
| Validation.RejectsZero | middleware/validation.js:4 | a numeric 0 in any of the seven fields is refused |
| Validation.RejectsEmptyOrMissing | middleware/validation.js:4 | an empty string or a missing field is refused |
| PropertyRoutes.ListProperties | routes/properties.js:5-11 | GET / always answers success with an empty list |
| PropertyRoutes.ListFeatured | routes/properties.js:13-19 | GET /featured always answers success with an empty list |
| PropertyRoutes.ShowProperty | routes/properties.js:21-27 | GET /:id echoes the id with the title `Test Property` and nothing else |
| PropertyRoutes.MockId | routes/properties.js:40 | the id is `property-` followed by decimal digits |
| PropertyRoutes.MockIdCarriesClock | routes/properties.js:40 | the digits after `property-` denote the clock reading |
| PropertyRoutes.AddProperty | routes/properties.js:30-61 | POST / answers 201 with success and an object |
| PropertyRoutes.Echoed | routes/properties.js:41-47 | the seven echoed fields, each `body[k] \|\| default`, and no other key |
| PropertyRoutes.AddPropertyKeys | routes/properties.js:39-59 | the reply has exactly the fifteen keys the handler writes, the seven echoed and the eight fixed ones, so no other key of the body is echoed |
| PropertyRoutes.AddPropertyFields | routes/properties.js:41-47 | each of the seven fields is the body's value when truthy and its fixed default otherwise |
| PropertyRoutes.AddPropertyFixedFields | routes/properties.js:48-58 | type, amenities, images, available, featured, the mock agent, the id and the time are fixed whatever the body holds |
| PropertyRoutes.AddPropertyPassesValidation | routes/properties.js:41-47 | the listing POST / answers with always passes the required-field middleware |
| PropertyRoutes.MockProperty | routes/properties.js:64-71 | POST /mock answers 201 and echoes the body unchanged |
| PropertyController.IndexOf | controllers/propertyController.js:100 | `findById`: a position holding that id, or none exactly when no listing has it |
| PropertyController.FindById | controllers/propertyController.js:49 | the listing with that id from the table, or none exactly when there is no such listing |
| PropertyController.GetProperty | controllers/propertyController.js:47-69 | 404 exactly when no listing has the id; otherwise 200 with that listing |
| PropertyController.Selects | controllers/propertyController.js:10-19 | a listing passes exactly when it is available, the location filter occurs in its location ignoring case, and it has at least the requested bedrooms; with no filter every available listing passes |
| PropertyController.Matching | controllers/propertyController.js:10-19 | exactly the available listings whose location contains the filter ignoring case and that have at least the requested bedrooms |
| PropertyController.NewestFirst | controllers/propertyController.js:24 | the same listings, as many, reordered |
| PropertyController.CursorLimit | controllers/propertyController.js:25 | a limit of 0 keeps every match, and a non-zero limit keeps its absolute value |
| PropertyController.GetProperties | controllers/propertyController.js:6-42 | 400 exactly when the skip is negative; otherwise 200, `total` counts every match, `count` is the page length and at most `total`, the page holds exactly the smaller of the absolute limit and the matches after the skip (all of those for limit 0), and the page is the matches newest first from position `(page-1)*limit` |
| PropertyController.GetPropertiesNewestFirst | controllers/propertyController.js:22-26 | every page is strictly newest first |
| PropertyController.DefaultPageIsTenNewest | controllers/propertyController.js:8-26 | with no paging parameters the answer is the ten newest matches |
| PropertyController.PagesDisjoint | controllers/propertyController.js:25-26 | two different pages with the same positive limit share no listing |
| PropertyController.PriceIgnored | controllers/propertyController.js:8 | the `price` parameter changes nothing |
| PropertyController.NewestFirstIsDecreasing | controllers/propertyController.js:24 | a filtered, reversed table is strictly decreasing in creation time |
| PropertyController.Featured | controllers/propertyController.js:173-191 | at most six listings, each featured, available and stored |
| PropertyController.FeaturedAreTheNewest | controllers/propertyController.js:175-178 | a featured, available listing left out is older than all six shown |
| PropertyController.FeaturedNewestFirst | controllers/propertyController.js:175-178 | the featured list is newest first |
| PropertyController.MyProperties | controllers/propertyController.js:196-213 | exactly the requester's listings |
| PropertyController.MyPropertiesNewestFirst | controllers/propertyController.js:198-200 | and newest first |
| PropertyController.AppendKeepsInvariant | controllers/propertyController.js:79 | inserting a well-formed listing with the next id keeps the table invariant |
| PropertyController.ReplaceKeepsInvariant | controllers/propertyController.js:117-120 | overwriting one listing with a well-formed one of the same id and time keeps the table invariant |
| PropertyController.Without | controllers/propertyController.js:156 | the table without the listing of this id and with every other one |
| PropertyController.RemoveKeepsInvariant | controllers/propertyController.js:156 | deleting keeps the table invariant |
| PropertyController.PropertyStore.Create | controllers/propertyController.js:74-93 | the requester becomes the agent whatever the body said; a refused body answers 400 and stores nothing; otherwise 201 and exactly one listing, with a fresh id, is appended |
| PropertyController.PropertyStore.Update | controllers/propertyController.js:98-132 | 404 for an absent id and 403 for another agent's listing, both leaving the table unchanged; 400 on a refused update, unchanged; otherwise 200 and only that listing changes |
| PropertyController.PropertyStore.Delete | controllers/propertyController.js:137-168 | the same 404 and 403 answers, unchanged; otherwise 200, the id is gone and every other listing stays |
| FavoriteController.IndexOfPair | controllers/favoriteController.js:47-50 | `findOne({ user, property })`: a position holding the pair, or none exactly when no favorite has it |
| FavoriteController.IsFavorited | controllers/favoriteController.js:120-123 | true exactly when some favorite has the pair |
| FavoriteController.CheckFavorite | controllers/favoriteController.js:118-135 | always 200, true exactly when the pair is saved; a function of the table, so nothing changes |
| FavoriteController.UserFavorites | controllers/favoriteController.js:9 | exactly this user's favorites |
| FavoriteController.UserFavoritesNewestFirst | controllers/favoriteController.js:17 | in newest-first order |
| FavoriteController.GetFavorites | controllers/favoriteController.js:7-30 | `count` is the list length, and each entry is the listing of this user's favorite at that position, or none when that listing is gone |
| FavoriteController.GetFavoritesAreOwn | controllers/favoriteController.js:9-22 | every listing returned exists and is one this user saved |
| FavoriteController.InsertKeepsInvariant | controllers/favoriteController.js:47-62 | inserting a pair not yet present keeps pairs unique and the order intact |
| FavoriteController.RemoveAt | controllers/favoriteController.js:101 | removing one position keeps every other favorite in order |
| FavoriteController.RemoveKeepsInvariant | controllers/favoriteController.js:101 | removal keeps the favorites invariant |
| FavoriteController.RemoveExactlyThePair | controllers/favoriteController.js:89-101 | with pairs unique, removing the one found removes exactly that pair and keeps every other favorite of every user |
| FavoriteController.FavoriteStore.Add | controllers/favoriteController.js:35-82 | 404 for an absent listing and 400 for a pair already saved, both unchanged; otherwise 201 with the listing and exactly that pair appended |
| FavoriteController.FavoriteStore.Remove | controllers/favoriteController.js:87-113 | 404 for a pair not saved, unchanged; otherwise 200, the pair is gone and every other favorite stays |
| FavoriteController.SaveTwiceThenRemove | controllers/favoriteController.js:35-135 | saving a listing twice is refused the second time with 400, removal answers 200, and the check then answers false |
| InquiryController.PhoneOr | controllers/inquiryController.js:23 | `phone \|\| req.user.phone`: the body's phone when non-empty, else the requester's; the result is a truthy string exactly when either one is |
| InquiryController.InquiryDocument | controllers/inquiryController.js:20-27 | name and email come from the requester, the agent from the listing, property and message from the body |
| InquiryController.OnlyTheMessageCanFail | controllers/inquiryController.js:20-27 | for a requester read from the users collection, the inquiry is accepted exactly when the message is non-empty, and then carries that user's name and email and status `new` |
| InquiryController.AppendKeepsInvariant | controllers/inquiryController.js:20-27 | appending a well-formed inquiry stamped with the clock keeps the inquiries invariant |
| InquiryController.InquiryStore.Create | controllers/inquiryController.js:7-42 | 404 when the listing is absent and 400 when the schema refuses, both creating nothing; otherwise 201 and exactly one inquiry appended, with the listing's agent, the given property, the requester's name and email, the chosen phone and status `new` |
| InquiryController.AgentInquiries | controllers/inquiryController.js:47-64 | exactly the inquiries addressed to the requesting agent |
| InquiryController.AgentInquiriesNewestFirst | controllers/inquiryController.js:49-51 | in newest-first order |
| InquiryController.UserInquiries | controllers/inquiryController.js:69-87 | exactly the inquiries sent under the requester's email |
| InquiryController.UserInquiriesNewestFirst | controllers/inquiryController.js:71-74 | in newest-first order |

## Left out

- The location filter is a MongoDB `$regex` with option `i` built from the raw query text. It is modelled as a case-insensitive substring test, which can differ from the regex on text with metacharacters. `Text.ContainsIgnoringCase` also folds only ASCII letters, while option `i` folds non-ASCII letters too (see the next line).
- Lower-casing is ASCII only, in `Text.Lower` and so in `Text.ContainsIgnoringCase` and `UserSchema.LowerOpt`. JavaScript's `toLowerCase` and the regex option `i` also fold non-ASCII letters; that folding is not modelled.
- Query-string coercion is not modelled: `parseInt(bedrooms)`, `limit * 1` and `page - 1` on strings, and their NaN results. Query fields arrive as integers, and an absent or empty `location` sets no filter.
- Mongoose's casting of body values to the schema types is not modelled, nor the cast errors a malformed ObjectId raises. Bodies arrive already typed, and numbers are integers.
- `_id`, `createdAt` and `updatedAt` keys inside a body are not modelled, for updates and for creation alike. `createProperty` passes the raw body to `Property.create` (controllers/propertyController.js:77-79), so a client-supplied `_id` or `createdAt` could be kept there. In the model a body cannot carry these keys, an update cannot change a listing's id or creation time, and `PropertyStore.Create` always takes both from the clock.
- `populate` projections are not modelled. Controllers return whole records, or ids in place of the referenced user or listing.
- A favorite whose listing was deleted populates to `null`. The model returns none for that favorite.
- Real timestamps (`timestamps: true`, `Date.now()`, `toISOString()`) are replaced by a counter or a parameter.
- Concurrency, including the check-then-insert race on favorites, is not modelled: calls are sequential. Without the race, unique pairs are an invariant `FavoriteStore.Add` keeps.
- bcrypt hashing, the pre-save hook and `matchPassword` (models/User.js:49-61) are library calls. The stored password is the given one. The hook calls `next()` without returning, so no claim is made about when it rehashes.
- models/Favorite.js is not part of this model; a favorite holds the fields the controller reads and writes.
- Error message texts are not modelled, only the kind of failure and its status code.
- The text index (models/Property.js:78-82) is not modelled.
- The guards against redefining a model (models/Property.js:4-6, models/User.js:5-7) are not modelled.
- Route wiring, CORS, the health and debug endpoints, the catch-all handlers and the database connection (server.js, config/database.js, routes/favorites.js, routes/inquiries.js) are plumbing and are not modelled.
- `protect` and `authorize('agent')` are preconditions. The requester's id, name, email and phone are parameters.
- The GET and POST handlers in routes/properties.js log the body; the logging is not modelled.
- controllers/propertyController.js and middleware/validation.js are not referenced by the mounted property router or by any route file shown. They are modelled as written, as handlers that would run if wired.
- No user controller is among the modelled files: server.js:8 mounts ./routes/auth, which is not part of this model. `UserSchema.Register` models what the schema and its unique index do to one insertion.
- UserSchema.Register: the 400 status of a rejected registration, including a duplicate key, is the model's choice. It follows the catch blocks of the controllers shown; the registration handler is not part of this model.
- PropertyRoutes.AddProperty: its own contract states only the status and the shape. The key set is stated by `AddPropertyKeys`, and the field values by `AddPropertyFields` and `AddPropertyFixedFields`.
