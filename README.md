# Student app: a Dafny model of its logic

The repository is a student mobile application (login, profile, weekly class schedule) and
the Laravel controller that serves it. This project models the parts of it that hold logic:

- **Product-list utilities** (`utils/helpers.js`, module `Helpers`). These are the text,
  category, price and flag filters, the sort that works on a copy, the `applyAllFilters`
  pipeline, `slugify` and `isValidEmail`. All are pure functions over sequences of `Product`
  values. Prices and ratings are integers, and strings are `seq<char>`.
- **HTTP wrapper and session storage** (`services/api.js`, module `Api`). `apiCall` is split
  into the request it builds (`Headers`, `BuildRequest`) and the classification of what comes
  back (`Classify`, `RewriteError`, `CallOutcome`). The device's key-value storage is the
  `items: map<string, string>` field of the class `SessionStore`. `login`, `logout`,
  `isLoggedIn` and `getStoredStudentData` are methods of that class.
- **Authentication provider** (`context/AuthContext.js`, module `AuthContext`). The class
  `AuthProvider` has the React state `isLoading`, `isAuthenticated`, `student` and
  `expoPushToken` as fields. `checkLoginStatus`, `login`, `logout`, `updateStudent` and the
  push-notification setup are methods that assign those fields.
- **Student API controller** (`LARAVEL_FIX_StudentApiController.php`, module `StudentApi`).
  This covers the `login` validation and guard chain, the student projection shared by `login`
  and `profile`, the two 404 guards of `schedule`, and its group-by-day `foreach` loop
  (`BuildSchedule`). That loop is proved equal to a fold (`Grouped`), and the fold's
  properties are proved as lemmas.

Shared modules:
- `Wrappers` provides `Option` and `Result`.
- `Text` provides ASCII lower-casing, JavaScript's `\s` class and `String.prototype.includes`.
- `Seqs` provides `Array.prototype.filter`, a stable sort by an integer key and the
  order-preserving sublist relation.
- `Json` provides JavaScript values after `JSON.parse`, with truthiness, property access and
  `String(x)`.

External collaborators are parameters of the functions and methods:
- `fetch` and `response.text()` are a `Transport` outcome.
- `JSON.parse` and `JSON.stringify` are the functions `parse` and `stringify`.
- `Hash::check`, `createToken` and `asset()` are `check`, `createToken` and `asset`.
- `localeCompare` is a rank `collate`.
- The Eloquent queries are the input tables `students`, `emplois` and `jours`, in query order.
- The push registration and listener installation are outcomes passed to
  `SetupPushNotifications`.

Four behaviours of the code that the model keeps as written:
- The controller answers an unknown NNI and a wrong password with distinct messages. It does
  not return one ambiguous "invalid credentials" answer.
- The client does not treat HTTP 401 differently from any other non-OK status. Both raise
  the server's `message`.
- A stored token without a stored student leaves the provider unauthenticated. It does not
  trigger a profile refetch.
- The schedule endpoint groups lessons by day name. No time-slot × day matrix is built on the
  server side that is modelled here.

## Model

| member | source | states |
|---|---|---|
| `Helpers.FilterByText` | utils/helpers.js:29-37 | empty search text returns the list unchanged; otherwise each product is kept, with its multiplicity, exactly when its lower-cased name or category contains the lower-cased text; the result is an order-preserving sublist |
| `Helpers.FilterByTextIgnoresCase` | utils/helpers.js:30-32 | searching for the lower-cased text gives the same result as searching for the text itself |
| `Helpers.CategoryLabel` | utils/helpers.js:73-82 | exactly the six keys of `categoryMap` have a label, and no label is empty |
| `Helpers.CategoryLabelInjective` | utils/helpers.js:73-83 | no two keys share a label, so a known key selects the products of that key only |
| `Helpers.FilterByCategory` | utils/helpers.js:70-84 | an empty category or `'all'` returns the list unchanged; otherwise exactly the products whose category equals the mapped label are kept, in order; an unknown key keeps nothing |
| `Helpers.FilterByPriceRange` | utils/helpers.js:92-99 | a missing range or one whose length is not 2 returns the list unchanged; otherwise exactly the products with min <= price <= max are kept, in order |
| `Helpers.FilterInStock` | utils/helpers.js:106-108 | drops exactly the products whose `inStock` is `false`; a missing field counts as in stock |
| `Helpers.FilterFreeShipping` | utils/helpers.js:115-117 | keeps exactly the products whose `freeShipping` is `true` |
| `Helpers.FilterOnSale` | utils/helpers.js:124-126 | keeps exactly the products with a present discount greater than 0 |
| `Helpers.SortKey` | utils/helpers.js:48-61 | exactly the five modes `priceLow`, `priceHigh`, `rating`, `name` and `newest` have an order; any other mode keeps the input order |
| `Helpers.SortProducts` | utils/helpers.js:45-62 | the result is a permutation of the input; `priceLow` gives non-decreasing price; `priceHigh`, `rating` and `newest` give non-increasing price, rating and date; `name` follows the collation rank; an unknown mode returns the input order |
| `Helpers.TextStage` | utils/helpers.js:138-140 | the text step of the pipeline keeps exactly the products passing the text option, as a sublist, and changes nothing when all pass |
| `Helpers.CategoryStage` | utils/helpers.js:143-145 | the category step keeps exactly the products passing the category option, as a sublist |
| `Helpers.PriceStage` | utils/helpers.js:148-150 | the price step keeps exactly the products passing the price option, as a sublist |
| `Helpers.StockStage` | utils/helpers.js:153-155 | the stock step applies the stock filter only when the option is set |
| `Helpers.ShippingStage` | utils/helpers.js:158-160 | the shipping step applies the free-shipping filter only when the option is set |
| `Helpers.SaleStage` | utils/helpers.js:163-165 | the sale step applies the on-sale filter only when the option is set |
| `Helpers.FilterStages` | utils/helpers.js:134-165 | the six filters in order keep exactly the products passing every set option, as an order-preserving sublist; a list whose products all pass is returned unchanged |
| `Helpers.ApplyAllFilters` | utils/helpers.js:134-173 | the result holds exactly the input products that satisfy every set filter; it is in input order when no known sort is asked for and sorted by the mode's key otherwise; with no option set it equals the input |
| `Helpers.ApplyAllFiltersIdempotent` | utils/helpers.js:134-173 | applying the pipeline twice with the same options gives the result of applying it once |
| `Helpers.CollapseSeparators` | utils/helpers.js:192 | the output starts with a hyphen exactly when the input starts with a separator, never contains `--`, and its other characters are non-separators of the input |
| `Helpers.CollapseIsCharByChar` | utils/helpers.js:192 | replacing each maximal run of whitespace, `_` and `-` by one hyphen equals reading the input one character at a time: the first separator of a run gives `-`, the following ones give nothing, every other character is kept |
| `Helpers.CollapseKeepsOthers` | utils/helpers.js:192 | the characters other than hyphens in the output are exactly the input's non-separators, in order |
| `Helpers.StrippedChars` | utils/helpers.js:190-191 | after lower-casing and removing non-word characters, every remaining character is a separator, a small letter or a digit |
| `Helpers.TrimHyphens` | utils/helpers.js:193 | the result is a slice of the input with only hyphens before and after it, and it neither starts nor ends with `-`; so exactly the leading and trailing runs of hyphens go, and inner hyphens stay |
| `Helpers.TrimmedIsSlug` | utils/helpers.js:193 | trimming hyphens off both ends of a collapsed string leaves a string that neither starts nor ends with `-` |
| `Helpers.Slugify` | utils/helpers.js:188-194 | the output holds only `a-z`, `0-9` and `-`, never contains `--`, and never starts or ends with `-`; its characters other than hyphens are exactly the lower-cased input's word characters other than `_`, in order; and it equals the character-by-character reference: after stripping, the first separator of each run gives `-`, the rest of the run nothing, and then the hyphens at both ends are trimmed |
| `Helpers.SlugIsFixedPoint` | utils/helpers.js:188-194 | a string already in slug shape is its own slug |
| `Helpers.SlugifyIdempotent` | utils/helpers.js:188-194 | `slugify(slugify(s)) == slugify(s)` |
| `Helpers.IsValidEmail` | utils/helpers.js:201-204 | the regular expression as a split into a non-empty run of characters that are neither blank nor `@`, an `@`, another such run, a `.` and a third such run; its meaning is stated by `EmailCharacterization` |
| `Helpers.EmailCharacterization` | utils/helpers.js:201-204 | the regular expression accepts exactly the strings with no whitespace, exactly one `@`, a non-empty local part, and a `.` after the `@` that is neither the first nor the last character of the domain part |
| `Text.ContainsAt` | utils/helpers.js:34-35 | `includes` holds whenever the needle occurs at some offset |
| `Text.ContainsWitness` | utils/helpers.js:34-35 | when `includes` holds, the needle occurs at some offset |
| `Json.ToText` | services/api.js:55 | `String(x)` of the `message` a non-OK response carries: a string converts to itself |
| `Json.NumberText` | services/api.js:55 | for the integers the model has, `String(n)` is the decimal digits, with no leading zero, after a `-` when `n` is negative |
| `Json.DecimalRoundTrip` | services/api.js:55 | the digits written for a natural number read back as that number, and start with `0` only for 0 |
| `Api.Headers` | services/api.js:13-23 | JSON `Content-Type` and `Accept` are always set; `Authorization: Bearer <token>` is set exactly when the call requires authentication and a non-empty token is stored; no other header is set |
| `Api.BuildRequest` | services/api.js:25-35 | the request goes to the API URL plus the endpoint, with those headers; a body, the serialised `body`, is set exactly when `body` is truthy |
| `Api.Classify` | services/api.js:45-58 | text that does not parse raises the invalid-data error; a parsed `null` raises a property-access error; a non-OK status raises `data.message`, or the default message when that is falsy; an OK status returns `data.data` when it is truthy and `data` otherwise |
| `Api.RewriteError` | services/api.js:59-64 | an error whose message contains "Network request failed" becomes the connection-failure error; any other error is re-thrown unchanged |
| `Api.CallOutcome` | services/api.js:34-65 | the call succeeds exactly when a response arrived with `ok` set and parsed to a non-null value; every failure is the classified error passed through the rewrite |
| `Api.NetworkFailureIsReported` | services/api.js:61-63 | a transport failure whose message starts with "Network request failed" surfaces as the connection-failure message |
| `Api.StoredToken` | services/api.js:7-9 | the stored token is present exactly when the `userToken` key is |
| `Api.StoredStudent` | services/api.js:120-123 | a missing or empty `studentData` gives `null`; otherwise the parsed snapshot, or a syntax error when it does not parse |
| `Api.LoginPayload` | services/api.js:75 | `response.data` when it is truthy, otherwise the response itself; never `null` |
| `Api.AfterLogin` | services/api.js:77-87 | `userToken` is written only when the payload has a truthy token, `studentData` only when it has a truthy student; every other key is unchanged |
| `Api.StoredStudentAfterLogin` | services/api.js:84-85 | after `login` with student `s`, `getStoredStudentData` returns `s`, given that serialising and parsing `s` round-trips |
| `Api.SessionStore.ApiCall` | services/api.js:12-66 | the request sent is `BuildRequest` with the stored token read only when authentication is required; the outcome is `CallOutcome` |
| `Api.SessionStore.Login` | services/api.js:69-94 | an unauthenticated POST of the credentials to `/login`; on failure the error is re-thrown and storage is unchanged; on success the payload is returned and storage becomes `AfterLogin` |
| `Api.SessionStore.Logout` | services/api.js:97-107 | an authenticated POST to `/logout` without body; whatever it returns, exactly `userToken` and `studentData` are removed and no error propagates |
| `Api.SessionStore.GetProfile` | services/api.js:110-112 | an authenticated GET of `/profile` with the `apiCall` outcome |
| `Api.SessionStore.GetSchedule` | services/api.js:115-117 | an authenticated GET of `/schedule` with the `apiCall` outcome |
| `Api.SessionStore.GetStoredStudentData` | services/api.js:120-123 | returns the stored snapshot as `StoredStudent` describes it |
| `Api.SessionStore.IsLoggedIn` | services/api.js:126-129 | true exactly when a non-empty token is stored |
| `AuthContext.RestoredStudent` | context/AuthContext.js:72-87 | a student is restored exactly when a non-empty token is stored and the stored snapshot parses to a truthy value, and it is that value |
| `AuthContext.RestoreAfterLogin` | context/AuthContext.js:74-80 | after a login that stored a token and a student, restoring yields that student |
| `AuthContext.NothingRestoredAfterLogout` | services/api.js:102-105 | after logout's two removals nothing can be restored, whatever was stored before |
| `AuthContext.AuthProvider.constructor` | context/AuthContext.js:8-12 | initial state: loading, not authenticated, no student, no push token, no listeners |
| `AuthContext.AuthProvider.CheckLoginStatus` | context/AuthContext.js:72-87 | loading ends in every case, errors included; the state becomes authenticated with the restored student only when one is restored, and is otherwise unchanged |
| `AuthContext.AuthProvider.Login` | context/AuthContext.js:89-98 | on success `student` is the payload's student and the state is authenticated; on failure the error is re-thrown and neither the state nor the storage changes |
| `AuthContext.AuthProvider.Logout` | context/AuthContext.js:100-112 | whatever the remote call does, storage loses both keys and the state ends with no student and not authenticated |
| `AuthContext.AuthProvider.UpdateStudent` | context/AuthContext.js:114-116 | only `student` changes |
| `AuthContext.AuthProvider.SetupPushNotifications` | context/AuthContext.js:32-70 | no registration, saving or listener failure changes `isAuthenticated`, `student` or `isLoading`; a truthy token is kept; listeners are installed only when registration returned |
| `StudentApi.Violations` | LARAVEL_FIX_StudentApiController.php:20-23 | exactly the fields that are missing or blank fail validation |
| `StudentApi.FirstIndex` | LARAVEL_FIX_StudentApiController.php:26-28 | `first()` finds the earliest row matching the condition, or none when no row matches |
| `StudentApi.ProjectClass` | LARAVEL_FIX_StudentApiController.php:68-74 | `niveau`, `specialite` and `annee` default to `''` when the relation or its field is missing |
| `StudentApi.ProjectStudent` | LARAVEL_FIX_StudentApiController.php:61-74 | `image` is null exactly when the stored image is falsy, otherwise the asset URL of `storage/` + image; `class` is null exactly when the student has no class |
| `StudentApi.Login` | LARAVEL_FIX_StudentApiController.php:18-79 | validation first (422), then unknown NNI, no user account and wrong password, each a 401 with its own message and each exactly in its case; success, with a created token, exactly when all checks pass |
| `StudentApi.Profile` | LARAVEL_FIX_StudentApiController.php:84-117 | 404 exactly when no student belongs to the user; otherwise the projection of the first such student |
| `StudentApi.ViewRef` | LARAVEL_FIX_StudentApiController.php:173-184 | a missing subject, teacher or trimester gives id null and the name 'غير محدد' |
| `StudentApi.ViewHoraires` | LARAVEL_FIX_StudentApiController.php:185-193 | time slots are mapped in order to their five fields, or to `[]` when the relation is null |
| `StudentApi.ViewLesson` | LARAVEL_FIX_StudentApiController.php:170-195 | one lesson of a day's list: its id, its subject, teacher and trimester through `ViewRef`, and its time slots through `ViewHoraires` |
| `StudentApi.DaySlice` | LARAVEL_FIX_StudentApiController.php:167-170 | a day's list holds exactly the lessons with that `jour_id`, each with its index in the query result, in query order; it is non-empty exactly when such a lesson exists |
| `StudentApi.Lookup` | LARAVEL_FIX_StudentApiController.php:170 | a key is absent exactly when no entry carries it |
| `StudentApi.Put` | LARAVEL_FIX_StudentApiController.php:170 | assigning an existing key keeps every entry in place; assigning a new key appends it |
| `StudentApi.PutLookup` | LARAVEL_FIX_StudentApiController.php:170 | after the assignment the key reads the new value and every other key reads as before |
| `StudentApi.Days` | LARAVEL_FIX_StudentApiController.php:164 | the days are a permutation of the table, in ascending `ordre` |
| `StudentApi.ClassLessons` | LARAVEL_FIX_StudentApiController.php:152-160 | exactly the lessons of the class, each with its multiplicity in the table, as an order-preserving sublist of the table |
| `StudentApi.Grouped` | LARAVEL_FIX_StudentApiController.php:163-197 | the schedule the loop builds, as a fold of the days' entries; no day name appears twice in it |
| `StudentApi.GroupedKeys` | LARAVEL_FIX_StudentApiController.php:166-170 | a name is a key exactly when some day of that name has at least one lesson |
| `StudentApi.GroupedValue` | LARAVEL_FIX_StudentApiController.php:166-170 | a name holds the lessons of the last visited day of that name that has lessons, so a later day overwrites an earlier one of the same name |
| `StudentApi.GroupedInDayOrder` | LARAVEL_FIX_StudentApiController.php:163-197 | with distinct day names, the entries are those of the days with lessons, in visiting order |
| `StudentApi.BuildSchedule` | LARAVEL_FIX_StudentApiController.php:163-197 | the loop over the days computes `Grouped` |
| `StudentApi.ScheduleReply` | LARAVEL_FIX_StudentApiController.php:129-209 | 404 "student not found" first, when no student belongs to the user; then 404 "not enrolled" exactly when the student has no class; otherwise the class info and the grouped schedule |
| `StudentApi.Schedule` | LARAVEL_FIX_StudentApiController.php:129-209 | the endpoint answers `ScheduleReply` |

## Left out

- `formatPrice` and `calculateDiscount` (utils/helpers.js:8-21) are not modelled. They use floating-point formatting, division and `Math.round`.
- `generateUniqueId` is not modelled. It depends on `Math.random`.
- `debounce` is not modelled. It depends on timers and closure state.
- `Text.Lower` maps only the ASCII capitals. Non-ASCII characters whose JavaScript lower case is or begins with an ASCII letter (the Kelvin sign gives `k`; capital I with dot gives `i` followed by a combining dot) are not lower-cased.
- `Helpers.FilterByCategory` and `Helpers.FilterByText` take every product to carry `name`, `category`, `price` and `rating`. In the source, a product without `category` is kept by an unknown category key, since `undefined === undefined` (utils/helpers.js:82-83), and with a non-empty search text a product without `name` makes the text filter throw, as does one without `category` whose name does not contain the text, since `||` stops at a match (utils/helpers.js:30-35). The model has no such products.
- `Helpers.SortProducts`: the `name` mode sorts by a caller-supplied collation rank that stands for `localeCompare`. The `newest` mode takes `createdAt` as an already-parsed timestamp, and a missing one as 0.
- `Helpers.SortProducts`: `Array.prototype.sort` is taken to be stable, as the language has required since ECMAScript 2019.
- JSON numbers are integers. `JSON.parse` and `JSON.stringify` are parameters, not a parser and printer.
- `Json.ToText` writes every integer in plain decimal. JavaScript does so only below 10^21 in magnitude and uses exponent form above (`String(1e21)` is `"1e+21"`), so `Json.NumberText` holds of JavaScript only for those integers.
- `Api.SessionStore.Login` stores `String(token)` when the token is not a string, where AsyncStorage's handling of non-string values is not modelled.
- A failure of `response.text()` is treated as a `FetchFailed` transport outcome. The console logging of every call is left out.
- AsyncStorage calls are taken never to fail. A rejected `setItem` or `removeItem`, which would propagate out of `login` or `logout`, is not modelled.
- Async interleavings are not modelled: overlapping login/logout calls, the effect that runs `setupPushNotifications` whenever `isAuthenticated` becomes true, and the cleanup of listeners on unmount.
- `services/notificationService.js` is not part of this model. Its registration result and listener installation are parameters of `SetupPushNotifications`.
- `api.savePushToken` is not defined by the API module, so the call at context/AuthContext.js:41 always throws and is caught. The model reflects this by never saving the push token.
- The controller's `catch` branches that answer 500 (LARAVEL_FIX_StudentApiController.php:118-123, 211-216) are not modelled. They are reached only by database or framework exceptions.
- The controller's `logout` (LARAVEL_FIX_StudentApiController.php:222-238) revokes a token in the database. It is left out as a call into the authentication package.
- `request->user()` is taken to be the authenticated user that the route middleware guarantees.
- Validation covers the `required` rule on string inputs. Non-string inputs to the `string` rule are not represented.
- `Jour::orderBy('ordre')` leaves the order of equal `ordre` values to the database. The model keeps them in table order.
- `LARAVEL_StudentApiController_UPDATED.php` is not part of this model. Its `login` and `profile` repeat the ones modelled, and its `schedulePdf` is ORM loading and PDF rendering.
- The screens, navigation, styles and URL constants are not modelled. They are view code and static tables.
- The time-slot × day schedule matrix consumed by screens/ScheduleScreen.js:31 is built by server code that is not part of this model. No matrix builder is modelled.
