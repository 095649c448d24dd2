# Space booking backend — a verified model

This project models the core of an Express + Supabase backend for booking office spaces (rooms, desks) on floor plans. The core is:

- **The bookings table.** `createBooking` refuses an incomplete request, an empty or reversed time range, and a slot that overlaps an existing booking of the same space. Otherwise it appends one row. `deleteBooking` removes rows by id. `checkAvailability` lists the spaces that are busy in a window. `getBookingsBySpace` and `getBookingsByUser` list bookings in start order.
- **`generateValue`.** It turns a room-type or amenity label into a snake_case value. The room-type and amenity rows store that value next to the label.
- **Authentication and authorization middleware.** The bearer token is read from the `Authorization` header. The verified user is attached with a role that defaults to `"user"`. `requireRole` guards the admin routes.
- **The audit log.** `writeLog` appends entries best-effort. `getLogs` returns the newest hundred.
- **Request validation.** The field constraints of every request schema, and the `validate` middleware's answer.
- **Error handling.** The status and body chosen by `errorHandler`, the `ApiError` defaults, and the `notFoundHandler` message.
- **CORS.** The `origin` predicate.

Module layout, one per source file, plus shared ones:

| file | module | models |
|---|---|---|
| `bookings.dfy` | `Bookings` | `src/controllers/bookingController.ts` |
| `slug.dfy`, `config.dfy` | `Slug`, `Config` | `src/controllers/configController.ts` |
| `auth.dfy` | `Auth` | `src/middleware/auth.ts` |
| `audit.dfy` | `AuditLog` | `src/controllers/logController.ts` |
| `validators.dfy` | `Validators` | `src/validators/index.ts` |
| `errors.dfy` | `ErrorHandling` | `src/middleware/errorHandler.ts` |
| `cors.dfy` | `Cors` | the CORS callback of `src/index.ts` |
| `queries.dfy` | `Queries` | the query-builder operations the controllers use (`eq`/`lt`/`gt` filters, `order`, `limit`, `new Set`) as generic sequence functions |
| `strings.dfy` | `Strings` | `startsWith`, `endsWith`, `split`, `join`, `String(n)` |
| `http.dfy`, `wrappers.dfy` | `Http`, `Wrappers` | responses, the middleware continuation (`next()` or an answer), the request object, `Option`/`Result` |

The parts that change state in place are classes:

- `Bookings.BookingTable` holds the bookings as a `seq<Booking>` plus an id counter. Its `Valid()` invariant says:
  - no two bookings of one space overlap
  - ids are unique
  - every booking has start < end

  `CreateBooking` and `DeleteBooking` preserve that invariant.
- `AuditLog.AuditTrail` holds the audit entries.
- `Http.Request` has the `user`, `body`, `query` and `params` fields that the middleware assigns.

Everything else is pure functions and lemmas.

Inputs and environment:

- Times are integers (an instant on one time line).
- Calls into the identity provider, the profile lookup, Zod's `uuid`/`datetime` format checks and `new Date(...)` are function parameters (oracles).
- The environment (`NODE_ENV`, `FRONTEND_URL`), the stack trace and the creation timestamp of a log entry are parameters.

## Model

| member | source | states |
|---|---|---|
| Bookings.Decide | src/controllers/bookingController.ts:9-36 | missing field ⇔ 400 "Missing required fields"; complete and start ≥ end ⇔ 400 "End time must be after start time"; complete, start < end and some booking of the same space with `start < new.end && end > new.start` ⇔ 409 "Time slot already booked!"; each outcome is tied to its status and error text; otherwise the new booking carries the request's fields, is well formed, and clashes with no existing row |
| Bookings.BookingTable.CreateBooking | src/controllers/bookingController.ts:4-45 | keeps the table invariant (no double booking, unique ids, start < end); outcome is `Decide` on the old table; on success exactly one row is appended and the old rows are kept as a prefix, otherwise the table is unchanged; the id counter advances exactly when a row is created |
| Bookings.BookingTable.DeleteBooking | src/controllers/bookingController.ts:141-148 | keeps the invariant; the new table is `WithoutId` of the old one, and the answer is "Booking cancelled", whether or not the id existed |
| Bookings.OverlapsWindow | src/controllers/bookingController.ts:29-30 | definition: a row overlaps a window iff `start < window end` and `end > window start` (strict on both sides) |
| Bookings.Overlaps | src/controllers/bookingController.ts:28-30 | definition: the conflict query's row condition, same `space_id` and overlapping the window |
| Bookings.Clash | src/controllers/bookingController.ts:28-30 | definition: an existing row clashes with a booking when a request for that booking would find it in the conflict query |
| Bookings.Conflicts | src/controllers/bookingController.ts:25-30 | the conflict query returns exactly the rows of that space with `start < end'` and `end > start'` |
| Bookings.NoDoubleBooking | src/controllers/bookingController.ts:25-41 | definition: no two rows with different ids clash; the property the conflict check exists to keep |
| Bookings.TableInvariant | src/controllers/bookingController.ts:25-45 | definition: no double booking, unique ids, and every row has start < end and an id below the counter |
| Bookings.WithoutId | src/controllers/bookingController.ts:145 | every row whose id matches is removed; every other row keeps its multiplicity |
| Bookings.CreateKeepsNoDoubleBooking | src/controllers/bookingController.ts:25-45 | if no two bookings of one space overlap before a `createBooking`, none do after it, whatever its outcome |
| Bookings.CreateKeepsInvariant | src/controllers/bookingController.ts:25-45 | `createBooking` keeps the whole table invariant (no double booking, unique ids, start < end, ids below the counter), advancing the counter only on success |
| Bookings.DeleteKeepsInvariant | src/controllers/bookingController.ts:145 | deleting by id keeps the table invariant |
| Bookings.BackToBackNoClash | src/controllers/bookingController.ts:29-30 | bookings `[s, m)` and `[m, e)` of one space do not conflict (strict comparisons) |
| Bookings.ClashSymmetric | src/controllers/bookingController.ts:29-30 | the conflict test is symmetric |
| Bookings.SecondOverlappingRequestRefused | src/controllers/bookingController.ts:25-41 | after one request is booked, a second overlapping request for the same space is answered 409 |
| Bookings.TouchingBookingsScenario | src/controllers/bookingController.ts:25-36 | with [600,660) booked, [630,690) is refused while [660,720) and [540,600) are booked |
| Bookings.OccupiedSpaces | src/controllers/bookingController.ts:73-105 | missing start or end ⇔ 400 "Start and End time required"; otherwise the result has no duplicates and holds exactly the space ids with a booking overlapping the window |
| Bookings.OccupiedSpacesIgnoresFloor | src/controllers/bookingController.ts:73-95 | `floor_id` does not change the answer |
| Bookings.SpaceIds | src/controllers/bookingController.ts:100 | `map(b => b.space_id)`: same length, i-th id of i-th row |
| Bookings.SpaceIdsMembers | src/controllers/bookingController.ts:100 | an id is in the mapped list iff some row has that space id |
| Bookings.BookingsBySpace | src/controllers/bookingController.ts:54-62 | empty space id ⇔ 400 "Space ID required"; otherwise exactly the rows of that space (as a multiset), sorted by start |
| Bookings.BookingsByUser | src/controllers/bookingController.ts:115-130 | exactly the rows of that user (as a multiset), sorted by start |
| Queries.Filter | src/controllers/bookingController.ts:25-30 | an element is kept iff it is in the input and passes the test; never longer than the input |
| Queries.FilterCount | src/controllers/bookingController.ts:58-61 | a filter keeps every passing element with its multiplicity and drops the rest |
| Queries.SortBy | src/controllers/bookingController.ts:62 | `order(key)`: result sorted by the key and a permutation of the input |
| Queries.Insert | src/controllers/bookingController.ts:62 | inserting into a sorted list keeps it sorted, adds exactly that element, and puts either it or the old head first |
| Queries.SortedCons | src/controllers/bookingController.ts:62 | a head whose key is not above the first key of a sorted list keeps it sorted |
| Queries.InsertBehindHead | src/controllers/bookingController.ts:62 | inserting behind a smaller head keeps the list sorted and adds exactly the inserted element |
| Queries.TakeSorted | src/controllers/logController.ts:29-30 | `limit(k)` on a sorted list returns elements of the list, and every element left out has a key no smaller than any taken |
| Queries.Dedup | src/controllers/bookingController.ts:103 | `[...new Set(xs)]`: no duplicates, same members, never longer |
| Slug.ToLower | src/controllers/configController.ts:18 | `toLowerCase` on ASCII, character by character |
| Slug.StripSpecial | src/controllers/configController.ts:21 | keeps exactly the characters a-z, 0-9 and whitespace |
| Slug.StripSpecialIsStripped | src/controllers/configController.ts:21 | after the deletion only letters, digits and whitespace remain |
| Slug.DropSpaces | src/controllers/configController.ts:22-23 | drops a prefix made only of whitespace and stops at a non-whitespace character |
| Slug.DropTrailingSpaces | src/controllers/configController.ts:23 | drops a suffix made only of whitespace and stops at a non-whitespace character |
| Slug.TrimNoSpace | src/controllers/configController.ts:23 | `trim` leaves a string without whitespace unchanged |
| Slug.UnderscoreShape | src/controllers/configController.ts:22 | `replace(/\s+/g, "_")` on stripped text yields slug characters only, empty iff the input is, and starts/ends with `_` iff the input starts/ends with whitespace |
| Slug.UnderscoreCharset | src/controllers/configController.ts:22 | on stripped text the replacement yields a-z, 0-9 and `_` only |
| Slug.UnderscoreEnds | src/controllers/configController.ts:22 | the replacement empties only the empty string and starts/ends with `_` exactly where its input starts/ends with whitespace |
| Slug.UnderscoreSpace | src/controllers/configController.ts:22 | a space followed by a non-space becomes one `_` |
| Slug.UnderscoreLetter | src/controllers/configController.ts:22 | a non-space character passes the replacement unchanged |
| Slug.UnderscoreNoDouble | src/controllers/configController.ts:21-22 | the replacement never produces `__` |
| Slug.UnderscoreNoSpace | src/controllers/configController.ts:22 | text without whitespace passes the replacement unchanged |
| Slug.DropSpacesKeepsAlnum | src/controllers/configController.ts:22 | the dropped whitespace carries no letters or digits |
| Slug.UnderscoreKeepsAlnum | src/controllers/configController.ts:22 | the replacement keeps the letters and digits, in order |
| Slug.FilterOfStripSpecial | src/controllers/configController.ts:21 | the deletion keeps all letters and digits, in order |
| Slug.StripSpecialWithoutSpaces | src/controllers/configController.ts:21 | without whitespace the deletion keeps letters and digits only |
| Slug.Trim | src/controllers/configController.ts:23 | definition: `trim` drops leading and trailing whitespace |
| Slug.Underscore | src/controllers/configController.ts:22 | definition: `replace(/\s+/g, "_")`, every maximal run of whitespace becomes one `_` |
| Slug.GenerateValue | src/controllers/configController.ts:16-24 | definition: `generateValue` is lower-case, delete everything but a-z, 0-9 and whitespace, replace whitespace runs by `_`, trim; its properties are the `GenerateValue…` lemmas |
| Slug.GenerateValueCharset | src/controllers/configController.ts:16-24 | the value contains only a-z, 0-9 and `_`, and never `__` |
| Slug.GenerateValueEdges | src/controllers/configController.ts:22-23 | leading/trailing whitespace of the label becomes a leading/trailing `_` |
| Slug.LeadingSpaceKept | src/controllers/configController.ts:22-23 | a label starting with whitespace gives a value starting with `_` |
| Slug.TrailingSpaceKept | src/controllers/configController.ts:22-23 | a label ending with whitespace gives a value ending with `_` |
| Slug.TrimIsNoOp | src/controllers/configController.ts:22-23 | the final `trim` changes nothing, because no whitespace survives the replacement |
| Slug.PaddedLabelExample | src/controllers/configController.ts:16-24 | `" Lab "` gives `"_lab_"` |
| Slug.GenerateValueKeepsAlnum | src/controllers/configController.ts:18-22 | deleting the underscores from the value gives the lower-cased label's letters and digits, in order |
| Slug.GenerateValueWithoutSpaces | src/controllers/configController.ts:18-21 | a label without whitespace yields exactly its lower-cased letters and digits, in order (underscores and punctuation deleted) |
| Config.NewRoomType | src/controllers/configController.ts:27-33 | the stored row keeps the label and has `value = generateValue(label)`, a slug |
| Config.StoredIcon | src/controllers/configController.ts:69 | `icon \|\| null`: absent or empty icon ⇔ null, otherwise the icon itself |
| Config.NewAmenity | src/controllers/configController.ts:63-69 | label kept, value the slug of the label, icon null iff absent or empty |
| Config.RoomTypeDetails | src/controllers/configController.ts:37 | the audit details start with "Created room category: " and end with the label |
| Config.AmenityDetails | src/controllers/configController.ts:73 | the audit details start with "Created amenity: " and end with the label |
| Config.RoomTypeLogEntry | src/controllers/configController.ts:37 | `createRoomType` logs a `CONFIG_CREATE` entry whose details start with "Created room category: " and end with the label, iff the actor is truthy |
| Config.AmenityLogEntry | src/controllers/configController.ts:73 | `createAmenity` logs a `CONFIG_CREATE` entry whose details start with "Created amenity: " and end with the label, iff the actor is truthy |
| Auth.HasBearer | src/middleware/auth.ts:29 | definition: the header is present, non-empty and starts with "Bearer " |
| Auth.BearerToken | src/middleware/auth.ts:36 | the token holds no space, follows "Bearer " directly, and is followed by a space or the end of the header |
| Auth.BearerTokenIsSecondField | src/middleware/auth.ts:36 | the token is `header.split(" ")[1]` |
| Auth.EmptyTokenExample | src/middleware/auth.ts:36 | "Bearer " yields the empty token |
| Auth.ResolveRole | src/middleware/auth.ts:57 | `profile?.role \|\| "user"`: a non-empty profile role is used, otherwise "user"; never empty |
| Auth.Authenticate | src/middleware/auth.ts:29-64 | header absent, empty or not "Bearer …" → 401; token refused → 401; verifier threw → 500; otherwise the user is attached with its id, email and resolved role |
| Auth.AuthMiddleware | src/middleware/auth.ts:21-65 | on success `req.user` is set and `next` is called; otherwise the response is sent and `req.user` is untouched |
| Auth.OptionalUser | src/middleware/auth.ts:79-95 | a user is attached iff the header is a bearer header whose token verifies, and it is the user `authMiddleware` would attach |
| Auth.OptionalAuthMiddleware | src/middleware/auth.ts:71-103 | always continues with `next` and never answers; `req.user` changes only when a user verifies |
| Auth.RoleOrEmpty | src/middleware/auth.ts:116 | definition: `req.user.role \|\| ""`, the role or the empty string when it is missing |
| Auth.RequireRole | src/middleware/auth.ts:109-123 | no user → 401; otherwise `next` iff `role \|\| ""` is listed, and 403 when it is not |
| Auth.MissingRoleRefused | src/middleware/auth.ts:116-119 | a user without a role is refused (403) by any list of non-empty roles |
| Auth.AdminGate | src/middleware/auth.ts:54-58 | behind `authMiddleware`, `requireRole(["admin"])` passes iff the profile role is "admin" |
| AuditLog.Truthy | src/controllers/logController.ts:7 | definition: `actor_id` is truthy iff it is a non-empty string or an array (even an empty one) |
| AuditLog.EntryFor | src/controllers/logController.ts:7-17 | a falsy actor gives no entry; a string actor is recorded as is; an array actor as its first element; action and details as given |
| AuditLog.AuditTrail.WriteLog | src/controllers/logController.ts:6-21 | the log grows by exactly that entry when there is one and the insert succeeds, and is unchanged otherwise; no error reaches the caller |
| AuditLog.RecentLogs | src/controllers/logController.ts:26-30 | at most 100 entries (all of them if fewer), newest first |
| AuditLog.RecentLogsAreNewest | src/controllers/logController.ts:26-30 | the entries returned are entries of the log, and none left out is newer than one returned |
| AuditLog.NewestPrefix | src/controllers/logController.ts:29-30 | a prefix of entries sorted newest first leaves no newer entry behind |
| Validators.Check | src/validators/index.ts:8-117 | one check on one field: no issue iff it holds, else exactly one issue on that field with that message |
| Validators.NameIssues | src/validators/index.ts:9 | no issue iff the length is 1..100 |
| Validators.MaxIssues | src/validators/index.ts:29 | an optional string: no issue iff absent or within the limit |
| Validators.CreateFloorIssues | src/validators/index.ts:8-12 | accepted iff the name has 1..100 characters and width and height, when present, are positive |
| Validators.UpdateFloorIssues | src/validators/index.ts:14-16 | accepted iff the name has 1..100 characters |
| Validators.CapacityIssues | src/validators/index.ts:27 | accepted iff capacity is absent or a positive integer |
| Validators.CreateSpaceIssues | src/validators/index.ts:22-31 | accepted iff the optional id and floor_id are uuids, name has 1..100 characters, type is non-empty, capacity (if present) is a positive integer, description (if present) has at most 500 characters |
| Validators.UpdateSpaceIssues | src/validators/index.ts:33-39 | accepted iff each present field meets the same bounds as on creation |
| Validators.EndAfterStart | src/validators/index.ts:56 | definition: both dates parse and the end instant is strictly after the start; false on an Invalid Date |
| Validators.CreateBookingIssues | src/validators/index.ts:45-59 | accepted iff both ids are uuids, both times are date-times and end is strictly after start; when end is not after start the last issue is the range message on path `end_time` |
| Validators.CheckAvailabilityIssues | src/validators/index.ts:61-68 | accepted iff both times are date-times |
| Validators.CreateRoomTypeIssues | src/validators/index.ts:75-77 | accepted iff the label has 1..100 characters |
| Validators.CreateAmenityIssues | src/validators/index.ts:80-83 | accepted iff the label has 1..100 characters and the icon (if present) at most 50 |
| Validators.UpdateUserRoleIssues | src/validators/index.ts:85-89 | accepted iff the role is exactly "user" or "admin"; otherwise the single custom message |
| Validators.UpdateProfileIssues | src/validators/index.ts:99-105 | accepted iff full_name ≤ 100, phone ≤ 20, department ≤ 100 characters and the role (if present) is "user" or "admin" |
| Validators.UuidParamIssues | src/validators/index.ts:111-113 | accepted iff `id` is a uuid |
| Validators.UserIdParamIssues | src/validators/index.ts:115-117 | accepted iff `user_id` is a uuid |
| Validators.SchemaResult | src/validators/index.ts:137 | `safeParse` succeeds iff the schema reports no issue |
| Validators.SegmentTexts | src/validators/index.ts:141 | one text per path segment |
| Validators.FieldName | src/validators/index.ts:141 | definition: `path.join(".")`, the segment texts joined with "." |
| Validators.FieldNameRoundTrip | src/validators/index.ts:141 | splitting the field name at "." gives the path back, for keys without "." |
| Validators.Details | src/validators/index.ts:140-143 | one detail per issue, in order, with the joined path and the issue's message |
| Validators.ValidationStep | src/validators/index.ts:139-157 | `next` iff parsing succeeded; a failed parse answers 400 "Validation failed" with the details; a throw answers 400 "Invalid request data" |
| Validators.BookingRangeReported | src/validators/index.ts:56-59 | a well-formed booking whose end is not after its start is answered 400 with the single detail `{field: "end_time", message: "End time must be after start time"}` |
| Validators.Validate | src/validators/index.ts:130-159 | answers as `ValidationStep`; on success `req[target]` becomes the parsed data; the other targets and the user are untouched |
| ErrorHandling.NewApiError | src/middleware/errorHandler.ts:8-11 | keeps status and message; operational iff the third argument is omitted or true |
| ErrorHandling.HandleError | src/middleware/errorHandler.ts:33-53 | operational ApiError → its own status and message; otherwise 500, generic message in production, message and stack elsewhere |
| ErrorHandling.ProductionHidesInternals | src/middleware/errorHandler.ts:41-46 | in production no stack is sent, and the only non-generic message sent is an operational error's own |
| ErrorHandling.DefaultApiErrorAnswered | src/middleware/errorHandler.ts:8-37 | an ApiError built with two arguments is answered with its own status and message |
| ErrorHandling.NotFound | src/middleware/errorHandler.ts:70-72 | 404 with "Route <METHOD> <PATH> not found" |
| ErrorHandling.NotFoundNamesRoute | src/middleware/errorHandler.ts:70-72 | for methods without spaces, different routes give different messages |
| ErrorHandling.RouteInMessage | src/middleware/errorHandler.ts:71 | the message is "Route " + method + " " + path + " not found", so the route sits between its fixed prefix and suffix |
| ErrorHandling.RouteParts | src/middleware/errorHandler.ts:71 | "<METHOD> <PATH>" splits back into its method and path when the method holds no space |
| Cors.AllowedOrigins | src/index.ts:12-16 | definition: the list is `FRONTEND_URL` (possibly unset) and the two local dev servers |
| Cors.CheckOrigin | src/index.ts:12-35 | allowed iff the origin is absent or empty, listed (the frontend URL or one of the two dev servers), or ends with ".vercel.app"; otherwise rejected with "Not allowed by CORS" |
| Cors.DevOriginsAllowed | src/index.ts:14-15 | the two local dev servers are always allowed |
| Cors.PreviewDeploymentsAllowed | src/index.ts:29-31 | every `https://<host>.vercel.app` is allowed |
| Cors.LookalikeRefused | src/index.ts:29-34 | "https://evilvercel.app" is rejected |
| Strings.TakeUntil | src/middleware/auth.ts:36 | the longest prefix without the separator, followed by the separator or the end |
| Strings.Split | src/middleware/auth.ts:36 | `split` gives at least one field, the first being the text before the first separator |
| Strings.SplitJoin | src/validators/index.ts:141 | splitting a join gives the parts back when no part holds the separator |
| Strings.NatToString | src/validators/index.ts:141 | the decimal rendering of an array index is a non-empty string of digits |

## Left out

- The Supabase client: tables are in-memory sequences. Every 500 answer caused by a database error or a thrown exception in a controller (for example bookingController.ts:32, 44, 46-48) is not modelled.
- Concurrency: the check-then-insert race between two concurrent `createBooking` calls. The model is sequential, so each call is atomic, and nothing is claimed about interleavings.
- Dates: `new Date(...)`, `toISOString` and the raw ISO-string comparison in `checkAvailability`. Times are integers. An unparseable date in `createBooking` (an Invalid Date, for which every comparison is false) is not modelled.
- Bookings.BookingTable.CreateBooking: a new row gets a counter id instead of a database uuid, and the row stores integer times instead of the original strings.
- Bookings.BookingsBySpace: the order among bookings with equal start times is not specified (the database does not fix it either).
- Bookings.BookingsByUser: the joined `spaces(name, type)` columns are not modelled.
- AuditLog.RecentLogs: the joined `profiles(email)` column is not modelled. The order among entries with equal timestamps is not specified.
- Validators: schemas are modelled over records whose fields already have the JSON type the schema asks for. Zod's type errors, the stripping of unknown keys, and `coordinates`/`amenities` (accepted as any value of their type) are not modelled. `toggleRoomStatusSchema` is only a type check (`is_active` boolean), so it adds no refinement and is left out.
- Validators: `uuid()`, `datetime({offset: true})` and `new Date(...)` are the oracles in `Formats`. String lengths count Dafny characters, not UTF-16 code units.
- Slug.GenerateValue: requires ASCII input. Unicode `toLowerCase`, NFD normalization and the removal of combining accents are not modelled; on ASCII the last two change nothing.
- Auth: `supabase.auth.getUser` and the profile lookup are oracles. The profile lookup returns an optional role and cannot throw. A throw from the profile lookup (500 "Authentication failed" in `authMiddleware`, auth.ts:61-64; a plain `next()` without a user in `optionalAuthMiddleware`, auth.ts:99-101) can only be expressed as the token check returning `Threw`. That answer is the same as the source's: 500 in `Authenticate`, a plain `Next` without a user in `OptionalAuthMiddleware`.
- `getRoomTypes`, `deleteRoomType`, `getAmenities`, `deleteAmenity`, `getUsers`, `updateUserRole` and `toggleRoomStatus` of configController.ts (lines 6-13, 41-50, 53-60, 77-86, 89-96, 98-119, 122-142) are passthroughs to the database and are not modelled.
- Cascade deletes and floor statistics (`deleteFloor`, `getFloorStats`, `deleteSpace`): their bodies are not part of this model.
- `src/middleware/rateLimit.ts`, `src/routes.ts`, `src/middleware/index.ts` and the application setup in `src/index.ts` are framework configuration and are not modelled.
- floorController.ts, spaceController.ts and userController.ts are database passthroughs and are not modelled.
- `asyncHandler`, console logging, Express `res` objects and the async plumbing are not modelled.
