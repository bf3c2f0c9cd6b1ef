# LusCard events: a Dafny model of the account rules, request gatekeeping and client list logic

This project models the decision rules of the LusCard / union-mauri event
application and proves what they guarantee. The application has an Express +
Mongoose back end and a React client. The model covers:

- **The account table** (module `UserModel`, with `UserController` over it).
  The user collection is a class holding a sequence of user documents and the
  next free id. Registration rejects a taken email before a taken username.
  Login runs its 401/401/200 ladder. A profile update writes only the supplied
  fields, after the uniqueness and image-type checks. A user's publications
  are looked up by owner. Mongoose's behaviour is modelled explicitly:
  - `trim: true` setters also apply to query values, so every lookup compares
    the trimmed query;
  - `save` runs the `required` validators after trimming;
  - `findByIdAndUpdate` runs no validators.
- **Request gatekeeping** (modules `ValidatorJwt` and `Authorization`).
  - `validatorJWT` picks the token (the `authToken` cookie, else the session
    token). It answers 403 without a token or when verification throws, 401
    for an unknown id, and otherwise attaches `req.user` and calls `next`.
  - `authorizeRole` is an exact role comparison.
- **The home page** (modules `HomeUser` and `UpcomingEvents`).
  - The lists: the category filter, the stable newest-first sort (in place, on
    the state array itself when the selection is "all"), the reversed top-five
    "popular" slice, and the "ending soon" list.
  - The three-way expiry colour with its 3-day threshold in milliseconds.
  - The category badge and how publications are fetched.
- **The request form** (module `SendRequest`):
  - the required-field validator and its error object;
  - `handleChange`;
  - the MIME-prefix split of dropped files;
  - the order in which the submitted `FormData` is filled, with JSON-quoted
    `locations` and `medias`;
  - the reset that happens only on the exact success message.
- **The moderation list** (module `RequestsPage`): accept and deny remove the
  request by id only when the reply can be read.
- **The route guards** (modules `PrivateRoute` and `ProtectedRoute`), as
  decision functions over JavaScript values. `JsValues` supplies truthiness,
  `||` and property lookup.

Shared modules:

- `Seqs`: `filter`, `slice`, `reverse`, and a stable `sort` by numeric key,
  both as sequence functions and as in-place array methods.
- `JsString`: ECMAScript `trim` and `startsWith`, `JSON.stringify` of a
  string, and its inverse reader.
- `Records`: the request/publication document shape.
- `Jwt`: token claims.
- `Http`: status and message responses.
- `Wrappers`: `Option`.

Calls into code the model cannot see are parameters of the operations:

- `bcrypt.hash` and `bcrypt.compare`;
- `jwt.sign` and `jwt.verify` (`None` for a throw);
- Cloudinary's `uploadImage`;
- the client's fetch helpers;
- `sendRequest`, `acceptRequest` and `denyRequest`, whose outcomes are small
  datatypes.

Dates are integer milliseconds.

Points where the model follows the code rather than the intent the code
suggests:

- `getUserPublications` answers 200 with the list itself, so the model gives
  that response an empty message.
- `PrivateRoute` reads `loading` and `requiredRoles`. The provider exposes
  `load`, and the routes pass `requiredRole`. So the placeholder never shows,
  and every route admits any logged-in user.
- `profileUpdater` finds the caller's own email or username as "taken", so
  re-submitting one's own email is rejected with 406.
- The category icons in `HomeUser.jsx` are stored as the characters the file
  actually contains, a Mac Roman reading of the UTF-8 emoji, which are those
  four-character strings.

## Model

| member | source | states |
|---|---|---|
| UserModel.ParseRole | backend/src/models/user.model.js:7-13 | a role value is accepted exactly when, trimmed, it is "user" or "admin", and the accepted role's name is that trimmed value |
| UserModel.ParseRoleName | backend/src/models/user.model.js:7-13 | every role's name is accepted back as that role |
| UserModel.NewUser | backend/src/models/user.model.js:3-13 | a new document validates exactly when the trimmed username, password and email are all non-empty; a validated document is in stored form (all three trimmed) and carries the given id |
| UserModel.NewUserDefaults | backend/src/models/user.model.js:4-25 | a saved new user holds the trimmed inputs, role "user", the placeholder profile picture and empty publication lists |
| UserModel.FindByEmail | backend/src/controllers/user.controller.js:14 | every user found has the trimmed query email, and every user with it is found |
| UserModel.FindByEmailEmpty | backend/src/controllers/user.controller.js:14-19 | the email search is empty exactly when no user holds the trimmed email |
| UserModel.FindByUsername | backend/src/controllers/user.controller.js:21 | every user found has the trimmed query username, and every user with it is found |
| UserModel.FindByUsernameEmpty | backend/src/controllers/user.controller.js:21-26 | the username search is empty exactly when no user holds the trimmed username |
| UserModel.FindOneByEmail | backend/src/controllers/user.controller.js:72 | `findOne` returns nothing exactly when no user holds the trimmed email, otherwise a stored user holding it |
| UserModel.FindById | backend/src/middlewares/validatorJWT.js:16 | `findById` returns nothing exactly when no user has the id, otherwise a stored user with that id |
| UserModel.IndexOfId | backend/src/controllers/user.controller.js:241-245 | the position of the first user with the id, or none exactly when no user has it |
| UserModel.ApplyPatch | backend/src/controllers/user.controller.js:241-245 | `$set` changes exactly the supplied email, username and picture (the first two trimmed) and leaves id, password, role and publication lists alone |
| UserModel.ApplyEmptyPatch | backend/src/controllers/user.controller.js:205-245 | an update with no supplied field changes nothing |
| UserModel.AppendConsistent | backend/src/controllers/user.controller.js:36 | appending a stored-form user under the next id keeps ids distinct and below the counter |
| UserModel.AppendUnique | backend/src/controllers/user.controller.js:14-36 | appending a user whose email and username nobody holds keeps emails and usernames unique |
| UserModel.ReplaceConsistent | backend/src/controllers/user.controller.js:241-245 | replacing a user in place by a stored-form user with the same id keeps the table consistent |
| UserModel.UserTable.constructor | backend/src/models/user.model.js:28 | the collection starts empty and valid |
| UserModel.UserTable.Create | backend/src/controllers/user.controller.js:30-36 | `save` stores exactly the validated new document under the next id, or nothing; uniqueness is kept when the email and username were free |
| UserModel.UserTable.UpdateById | backend/src/controllers/user.controller.js:241-245 | an unknown id writes nothing and returns null; a known id replaces that user by the patched user and returns it |
| UserController.Register | backend/src/controllers/user.controller.js:10-67 | a taken email gives 406 and the email message, before the username is looked at; a taken username gives 406; neither writes; a missing password (bcrypt rejects) gives 500 with nothing stored; otherwise 201 with exactly the new user (hashed password) appended, or 500 with nothing stored when validation fails |
| UserController.Login | backend/src/controllers/user.controller.js:69-119 | unknown email 401; a missing password (bcrypt rejects) 500; wrong password 401; otherwise the token signed over the found user's id alone with 200 (500 when signing throws); a token is returned exactly on 200 |
| UserController.LoginSuccessWitness | backend/src/controllers/user.controller.js:72-90 | a 200 login names a stored user with that email whose stored hash matched, and the token is signed over that user's id |
| UserController.FindOneAfterAppend | backend/src/controllers/user.controller.js:36-72 | after appending a user with a previously free email, `findOne` by that email returns that user |
| UserController.RegisterThenLogin | backend/src/controllers/user.controller.js:28-90 | a registered user logs in with the registration email and a password the stored hash verifies, getting the token over the new id |
| UserController.UpdatePlan | backend/src/controllers/user.controller.js:199-261 | a supplied taken email gives 406, checked first; then a supplied taken username gives 406; then a file that is not one JPEG or PNG gives 400, and a failed upload gives 500; a request passing every check (free or absent email and username, and no file or one accepted image whose upload succeeds) is written; a write sets exactly the supplied fields, only to untaken values, and the picture exactly when a file came, to the uploaded asset's public id and secure URL |
| UserController.OwnEmailRejected | backend/src/controllers/user.controller.js:207-213 | re-submitting any stored user's own email, the caller's included, gives 406 |
| UserController.PlanKeepsUnique | backend/src/controllers/user.controller.js:207-245 | applying a planned write to any one user keeps emails and usernames unique |
| UserController.CollectFields | backend/src/controllers/user.controller.js:205-239 | the successive assignments to `updatedFields` and the early returns compute the plan |
| UserController.ProfileUpdater | backend/src/controllers/user.controller.js:199-263 | a rejection writes nothing; an unknown caller gives 404 and writes nothing; otherwise exactly the caller's document is patched and 200 returns its picture; the table stays valid |
| UserController.GetUserPublications | backend/src/controllers/user.controller.js:292-311 | no caller gives 401; 404 exactly when the caller owns no publication; a caller owning some gets 200 with exactly the caller's publications, in storage order with their multiplicities (the filter of the stored list) |
| ValidatorJwt.SelectToken | backend/src/middlewares/validatorJWT.js:9 | the cookie when it is non-empty, otherwise the session token; a token exists exactly when one of the two is non-empty |
| ValidatorJwt.Authenticate | backend/src/middlewares/validatorJWT.js:7-30 | no token gives 403 "No tienes autorización"; a token `verify` rejects gives 403 "Error de autorización"; claims without an id or naming no stored user give 401 "Usuario no encontrado"; `next` happens exactly when the token verifies to claims with an id naming a stored user, and then the user is that stored user |
| ValidatorJwt.CookieWins | backend/src/middlewares/validatorJWT.js:9 | with a non-empty cookie the session token plays no part |
| ValidatorJwt.SessionFallback | backend/src/middlewares/validatorJWT.js:9 | an absent cookie and an empty cookie both fall back to the session token |
| ValidatorJwt.SignedTokenAuthenticates | backend/src/middlewares/validatorJWT.js:13-21 | a token that verifies to the claims login signs for a stored user admits exactly that user |
| ValidatorJwt.FindByIdUnique | backend/src/middlewares/validatorJWT.js:16 | with distinct ids, looking up a stored user's id finds that user |
| ValidatorJwt.Exchange.constructor | backend/src/middlewares/validatorJWT.js:7 | a request starts with no user attached, no response sent and `next` not called |
| ValidatorJwt.ValidatorJWT | backend/src/middlewares/validatorJWT.js:7-30 | on success `req.user` is the found user and `next` is called with no response; otherwise the ladder's response is sent, `next` is not called and no user is attached |
| Authorization.AuthorizeRole | backend/src/middlewares/authorization.js:1-3 | `next` exactly when the attached user's role equals the required role; 403 "Forbidden: Insufficient role" otherwise; a throw exactly when no user is attached |
| Authorization.NoRoleHierarchy | backend/src/middlewares/authorization.js:2 | the "user" check admits only ordinary users and the "admin" check only admins |
| Authorization.UnknownRoleRefusesAll | backend/src/middlewares/authorization.js:2-3 | a role outside the enum refuses every user with 403 |
| Authorization.BehindValidator | backend/src/middlewares/authorization.js:1-3 | behind a successful `validatorJWT` the check never throws and admits exactly the users with the required role |
| UpcomingEvents.Status | client/src/components/UpcommingEvents.jsx:9-20 | red exactly when the end is before now, orange exactly when it lies within three days from now (both ends inclusive), green exactly when later |
| UpcomingEvents.StatusMonotone | client/src/components/UpcommingEvents.jsx:10-20 | a later end is never "more expired": green stays green and red comes from red |
| UpcomingEvents.Rows | client/src/components/UpcommingEvents.jsx:8-25 | one row per event, in input order, with that event's title and colour |
| UpcomingEvents.NoRedRows | client/src/components/UpcommingEvents.jsx:8-20 | events that end at or after now give no red row |
| HomeUser.FindCategoryIn | client/src/pages/HomeUser.jsx:172-174 | `find` returns nothing exactly when no category has the id, otherwise a category with that id |
| Seqs.Find | client/src/pages/HomeUser.jsx:172-174 | `find` returns nothing exactly when no element satisfies the predicate, otherwise an element of the array that satisfies it |
| Seqs.FindFirst | client/src/pages/HomeUser.jsx:172-174 | `find` returns the element at the first index whose element satisfies the predicate |
| HomeUser.KnownCategories | client/src/pages/HomeUser.jsx:20-25 | exactly the four ids musical, charity, cultural and social are known |
| HomeUser.CardBadge | client/src/pages/HomeUser.jsx:185-203 | a badge exactly when the first photo has a URL; it shows the category's icon and name, or the fallback icon and "General" for an unknown category |
| HomeUser.FilterByCategory | client/src/pages/HomeUser.jsx:55-58 | "all" keeps the list itself; any other selection keeps only publications of that category |
| HomeUser.FilterByCategorySpec | client/src/pages/HomeUser.jsx:55-58 | each publication of the category is kept as often as it occurs, the others never, and filtering works piecewise, which keeps the publications' order |
| HomeUser.SortedByStart | client/src/pages/HomeUser.jsx:61-63 | the sorted list is a permutation of its input with start times non-increasing |
| HomeUser.Popular | client/src/pages/HomeUser.jsx:66 | at most five elements: the first min(5, n) publications in reverse order |
| HomeUser.PopularAfterSortAscending | client/src/pages/HomeUser.jsx:61-66 | when the sort has reordered the state array, the popular card lists its entries oldest first |
| HomeUser.Upcoming | client/src/pages/HomeUser.jsx:70-75 | no longer than the publication list |
| HomeUser.UpcomingSpec | client/src/pages/HomeUser.jsx:70-75 | exactly the publications ending at or after now, each as often as it occurs, in non-decreasing end order |
| HomeUser.UpcomingNeverRed | client/src/pages/HomeUser.jsx:70-133 | no row of the ending-soon card is red |
| HomeUser.EndpointFor | client/src/pages/HomeUser.jsx:36-39 | "all" fetches every publication; any other category fetches by that category |
| HomeUser.HomeUserPage.constructor | client/src/pages/HomeUser.jsx:13-15 | the page starts with no publications, not loading, with "all" selected |
| HomeUser.HomeUserPage.FetchPublications | client/src/pages/HomeUser.jsx:33-46 | the result of the chosen endpoint replaces the list; a failure keeps the list; loading ends false either way |
| HomeUser.HomeUserPage.Mount | client/src/pages/HomeUser.jsx:28-45 | on mount the full list is fetched once, as for the default category "all": success replaces the list, a failure keeps it, and loading ends false |
| HomeUser.HomeUserPage.HandleCategoryChange | client/src/pages/HomeUser.jsx:49-52 | the selection is recorded, then the fetch for it runs |
| HomeUser.HomeUserPage.Render | client/src/pages/HomeUser.jsx:55-75 | with "all" the state array is sorted in place and listed; otherwise the array is untouched and the sorted filtered list is shown; popular and ending-soon lists are computed from the array after the sort |
| Seqs.SortByKeyMultiset | client/src/pages/HomeUser.jsx:61-63 | sorting permutes its input |
| Seqs.SortByKeySorted | client/src/pages/HomeUser.jsx:61-63 | sorting orders by the comparator's key |
| Seqs.SortByKeyStable | client/src/pages/HomeUser.jsx:61-63 | sorting keeps the relative order of elements with equal keys |
| Seqs.SortInPlace | client/src/pages/HomeUser.jsx:61-63 | the in-place sort leaves the array holding the stable sort of its old contents |
| Seqs.ReverseInPlace | client/src/pages/HomeUser.jsx:66 | the in-place reverse leaves the array holding its old contents reversed |
| JsString.TrimSpec | backend/src/models/user.model.js:4-6 | `trim` cuts one contiguous piece out of the string, drops only whitespace and leaves none at either end |
| JsString.TrimIdempotent | backend/src/models/user.model.js:4-6 | trimming a trimmed value changes nothing |
| JsString.BlankIsTrimEmpty | client/src/pages/SendRequest.jsx:52-54 | a string is empty after `trim` exactly when it is all whitespace |
| JsString.ReadJsonQuote | client/src/pages/SendRequest.jsx:94-95 | the literal `JSON.stringify` writes for a string reads back as that string, whatever follows |
| JsString.JsonQuoteInjective | client/src/pages/SendRequest.jsx:94-95 | distinct strings give distinct JSON literals |
| SendRequest.ValidIffComplete | client/src/pages/SendRequest.jsx:50-62 | no field is missing exactly when titles and descriptions are non-blank and both coordinates, the category and both dates are non-empty |
| SendRequest.NoErrorsIffComplete | client/src/pages/SendRequest.jsx:61-62 | the recorded error object is empty exactly when no field is missing |
| SendRequest.OneLocationsError | client/src/pages/SendRequest.jsx:55-56 | a missing latitude or longitude records the one `locations` message |
| SendRequest.Partition | client/src/pages/SendRequest.jsx:76-80 | the photo and video lists together are no longer than the dropped list |
| SendRequest.NotBoth | client/src/pages/SendRequest.jsx:78-79 | no MIME type starts with both "image" and "video" |
| SendRequest.PartitionSpec | client/src/pages/SendRequest.jsx:76-80 | photos are exactly the dropped files starting "image" and videos those starting "video", any other file is dropped, and both keep the drop order |
| SendRequest.PartitionDisjoint | client/src/pages/SendRequest.jsx:78-79 | no file is in both lists |
| SendRequest.LocationsRoundTrip | client/src/pages/SendRequest.jsx:94-95 | the JSON written for the location reads back as the same latitude and longitude |
| SendRequest.MediaEntries | client/src/pages/SendRequest.jsx:101-102 | one "media" entry per file, in list order |
| SendRequest.FieldAt | client/src/pages/SendRequest.jsx:93-99 | the i-th key's entry is its JSON text for `locations` and `medias` and its raw value otherwise |
| SendRequest.BodyFields | client/src/pages/SendRequest.jsx:92-99 | the body opens with exactly one text entry per form key, in key order, followed by as many entries as files |
| SendRequest.BodyFiles | client/src/pages/SendRequest.jsx:101-102 | after the fields come all photos, then all videos, each under "media", in drop order |
| SendRequest.BodyLocations | client/src/pages/SendRequest.jsx:94-95 | the `locations` entry holds the location's JSON, which reads back as the form's location |
| SendRequest.AppendFiles | client/src/pages/SendRequest.jsx:101-102 | a `forEach` append loop adds exactly the files' entries after what was there |
| SendRequest.Serialize | client/src/pages/SendRequest.jsx:92-102 | the loops fill the `FormData` with exactly the specified body |
| SendRequest.SetFieldOnly | client/src/pages/SendRequest.jsx:65-67 | the named field takes the value, every other field keeps its own, and only the named field's missing status can change |
| SendRequest.SendRequestPage.constructor | client/src/pages/SendRequest.jsx:36-47 | the page starts with the empty form, no media, no errors, not loading |
| SendRequest.SendRequestPage.ValidateForm | client/src/pages/SendRequest.jsx:50-63 | the recorded errors are exactly the missing fields, each with its message; the result is true exactly when none is recorded; nothing else changes |
| SendRequest.SendRequestPage.HandleChange | client/src/pages/SendRequest.jsx:65-69 | the named field takes the value and only its error is cleared |
| SendRequest.SendRequestPage.HandleCategorySelect | client/src/pages/SendRequest.jsx:71-73 | only the category changes |
| SendRequest.SendRequestPage.OnDrop | client/src/pages/SendRequest.jsx:75-80 | the selection is replaced by the partition of the dropped files |
| SendRequest.SendRequestPage.HandleSubmit | client/src/pages/SendRequest.jsx:85-144 | an invalid form sends nothing and changes nothing else; a valid one sends exactly the specified body and ends not loading; form and media reset exactly when the reply's message is the success message |
| RequestsPage.RemoveById | client/src/pages/Requests.jsx:28 | no kept request has the id |
| RequestsPage.RemoveByIdMembers | client/src/pages/Requests.jsx:28 | a request is kept exactly when it was listed and has another id |
| RequestsPage.RemoveByIdCount | client/src/pages/Requests.jsx:28 | each kept request occurs as often as before |
| RequestsPage.RemoveByIdConcat | client/src/pages/Requests.jsx:28 | removal works piecewise, so the kept requests keep their order |
| RequestsPage.RemoveAbsentId | client/src/pages/Requests.jsx:28 | removing an id nobody has leaves the list unchanged |
| RequestsPage.RemoveOne | client/src/pages/Requests.jsx:24-28 | with ids unique, removing a request's id cuts out just that request |
| RequestsPage.Ids | client/src/pages/Requests.jsx:52-54 | one card key per request, in list order |
| RequestsPage.Render | client/src/pages/Requests.jsx:48-54 | the empty-list notice exactly when no request is pending, otherwise cards keyed by the requests' ids |
| RequestsPage.LastRemovedShowsNotice | client/src/pages/Requests.jsx:28-49 | accepting or denying the last pending request brings up the notice |
| RequestsPage.RequestsView.constructor | client/src/pages/Requests.jsx:7 | the list starts empty |
| RequestsPage.RequestsView.LoadRequests | client/src/pages/Requests.jsx:10-19 | a fetched list replaces the state; a failure keeps it and raises the load error |
| RequestsPage.RequestsView.HandleAccept | client/src/pages/Requests.jsx:24-32 | a readable reply raises its message and removes the id; a throw or a null body keeps the list and raises the accept error |
| RequestsPage.RequestsView.HandleDeny | client/src/pages/Requests.jsx:34-42 | a readable reply raises its message and removes the id; a throw or a null body keeps the list and raises the deny error |
| PrivateRoute.ContainsSpec | client/src/router/PrivateRoute.jsx:17 | a string-valued `requiredRoles` matches a role exactly when the role occurs in it as a substring |
| PrivateRoute.Includes | client/src/router/PrivateRoute.jsx:17 | an array tests membership, a string tests for a substring of the converted role, and every other value (`undefined`, `null`, booleans, plain objects) throws |
| PrivateRoute.Guard | client/src/router/PrivateRoute.jsx:6-22 | a truthy `loading` renders the placeholder first; then no user redirects to "/login"; the children render exactly when there is a user and `requiredRoles` is absent or includes the role; "/" only when it excludes the role |
| PrivateRoute.ProviderValue | client/src/context/UserContext.jsx:26 | the context value has exactly the keys `user` and `load` |
| PrivateRoute.RouteProps | client/src/App.jsx:19-21 | the routes' props have exactly the keys `requiredRole` and `children`, holding the route's role and its page |
| PrivateRoute.NeverPlaceholder | client/src/router/PrivateRoute.jsx:7-11 | under the provider the placeholder never renders |
| PrivateRoute.LoadingSessionRedirects | client/src/router/PrivateRoute.jsx:7-15 | while the session is still loading, the guard redirects to "/login" |
| PrivateRoute.RoutesAdmitAnyUser | client/src/router/PrivateRoute.jsx:17-21 | on the application's routes any logged-in user gets the children, whatever role the route names |
| PrivateRoute.RolesArrayChecked | client/src/router/PrivateRoute.jsx:17-21 | with a `requiredRoles` array a user gets the children exactly when their role is listed, and "/" exactly when it is not |
| PrivateRoute.EmptyRolesRefuseAll | client/src/router/PrivateRoute.jsx:17-19 | an empty `requiredRoles` array is truthy and turns every user away to "/" |
| ProtectedRoute.ResolvedRole | client/src/router/ProtectedRoute.jsx:13 | the role settled on is the answer's role or the required role |
| ProtectedRoute.ResolvedGrants | client/src/router/ProtectedRoute.jsx:13-30 | access is granted exactly when the answer names the required role or names none |
| ProtectedRoute.Render | client/src/router/ProtectedRoute.jsx:28-30 | the loading text exactly while loading; the element exactly when the role is the required one; otherwise a redirect to "/login" |
| ProtectedRoute.NullRoleRedirects | client/src/router/ProtectedRoute.jsx:18-30 | a role never set redirects to "/login" |
| ProtectedRoute.ProtectedRouteState.constructor | client/src/router/ProtectedRoute.jsx:6-7 | the role starts null and loading starts true |
| ProtectedRoute.ProtectedRouteState.VerifyUserRole | client/src/router/ProtectedRoute.jsx:10-23 | a successful answer sets the resolved role; a failure leaves the role; loading ends false on both paths |
| ProtectedRoute.ProtectedRouteState.Mount | client/src/router/ProtectedRoute.jsx:9-30 | after the check the component never shows loading; it shows the element exactly when the answer resolved to the required role, and a failed check redirects to "/login" |

## Left out

- The database layer is not modelled as Mongoose: the collection is an
  in-memory sequence, and query operators, casting of ids, population and
  connection handling (database.js) are out of scope.
- Foreign calls are parameters: hashing and comparison, token signing and
  verification (generateJWT.js), image upload. `fs.unlink` (deleting the
  uploaded temporary file) has no effect on any modelled state and is left out.
- Cookies, the session store and `req.session.destroy`, cookie options, and the
  toast and DOM rendering beyond the list/notice choice and the toast texts.
- The API helpers (requests.js, the publication fetchers): the model stops at
  the value handed to them or received from them. In particular, `sendRequest`
  serialises its argument with `JSON.stringify`. Applied to a `FormData`, that
  carries none of the appended entries. What the server then receives is not
  part of this model.
- The maps (Map.jsx, PubMap.jsx), the presentational components, HomeUser2.0,
  EditPage (unfinished and duplicating the form), FilteredPublications and the
  request schema's controller (req.controller.js): outside the modelled core.
- Dates: date-string parsing, `toLocaleDateString` and invalid (NaN) dates.
  Timestamps are integers and form dates are the strings the inputs hold.
- Coordinates are strings, as the form holds them. A numeric 0 (which is
  falsy) cannot arise from the text inputs and is not modelled.
- An absent `email` or `username` in a request body (`undefined`) is modelled
  as the empty string; the query Mongoose would run on an `undefined` value is
  not modelled. An absent password is modelled (as `None`) in Register and Login.
- UserController.GetUserPublications: the list is returned after
  `.populate("idUsers", …)`, which swaps each owner id for the owner's
  username, email and picture; the model returns the raw owner ids. A database
  error (the 500 of the catch) is not modelled.
- UserController.ProfileUpdater: an email or username made only of whitespace
  is truthy, so it passes the `if`, and it is stored trimmed as "".
  `findByIdAndUpdate` runs no validators, so the model lets that happen, as
  the code does. The table invariant therefore keeps uniqueness and trimming
  but not non-emptiness.
- SendRequest.SendRequestPage.HandleChange: only the five text inputs are
  modelled as names; a change event naming another key (such as `locations`)
  would overwrite that key with a string, and that path is not modelled.
- The form's `medias` field is always the empty bundle the
  form starts with, since no handler writes it; the model keeps it as the
  constant JSON text.
- The `message` state of the Requests page is never set, so its paragraph
  never renders; the model omits it.
- PrivateRoute.Includes: `includes` on other array values (numbers, objects)
  is not modelled; arrays hold strings here.
- Concurrency: overlapping asynchronous handlers, interleaved accept and
  deny, and effects re-running are out of scope; every handler runs to
  completion on the state it started from.
