# Task Manager SaaS: a verified model of its core

This project models, in Dafny, the logic inside the HTTP handlers of a
Nuxt/Prisma task manager. The app has users, projects, invitations and a
kanban board of tasks. Four pieces are modelled:

- **The kanban column ordering engine** (`server/api/task.ts`).
  - Every (project, status) pair is one ordered column of tasks.
  - Reindexing rewrites a column's positions to 0..n-1.
  - A move takes a task out of the destination list, clamps the target
    index, splices it in, and rewrites the destination's positions.
    When the column changes, the source column is reindexed too.
  - Create appends at the column's maximum position plus one.
  - `bulk_reorder` validates the ids, then writes position = index.
  - Delete and a status-changing PATCH reindex the old column.
  - The `Task` table is the field `tasks` of the class `TaskApi.Board`.
    Each handler and each transaction is one method that changes it.
    Every method is proved against pure functions of `ColumnOrder`:
    `Renumber`, `MoveOrder`, `MoveResult`.
  - Lemmas about those functions state the board's invariants:
    - dense positions in query order;
    - relative order kept;
    - every other column untouched.
- **Projects, membership and the invitation / access-request state machine**
  (`server/api/project.ts`).
  - `Access` models role resolution: 404 is checked before 403.
    It also models the idempotent MEMBER upsert.
  - `Invitations.ProjectStore` owns the project, member and invitation
    tables. It has one method per POST action (create, request_access,
    invite, accept, decline, approve, reject, revoke, remove_member) and
    one for leave. Each method states its exact order of 400/404/409/403
    answers and the new tables.
- **Session tokens and credentials** (`server/api/user.ts`, with identical
  copies in `project.ts` and `task.ts`).
  - `Base64Url` models base64url without padding, as in section 5 of
    RFC 4648, and Node's lenient decoder.
  - `SessionToken` models the HS256 JWS compact token (section 7.1 of
    RFC 7515) with its `iat` and `exp` claims.
  - `Password` models the `scrypt$salt$hash` format and its checker.
  - `Email` models normalisation and the validation regular expression.
  - `Users` models register, login, `requireAuth`, PATCH and DELETE of the
    signed-in user.
- **The client's error humaniser** (`app/utils/human-error.ts`), a pure
  function from an error value to a Russian message.

Some things are parameters:
- HMAC-SHA256, scrypt and JSON are function-valued parameters. JSON is
  required to round-trip.
- The clock is an integer number of milliseconds.
- Random tokens, salts and fresh row ids are parameters.
- Date parsing is a parameter.
- Database tables are maps. Each transaction is one atomic method.
- A query whose order is only "by position, ascending" may break ties in
  any order. Methods return that order as a ghost out-parameter, and
  `ColumnOrder.IsListing` describes it.

## How `bulk_reorder` validates its list

`bulk_reorder` is modelled as the code behaves. The handler
(`server/api/task.ts:597-605`) only checks that each id belongs to the
column. It does not require the list to name the whole column, or to name
each task once:
- `ColumnOrder.PartialReorderDuplicates` shows that a partial list leaves
  two tasks at the same position.
- `ColumnOrder.RepeatedIdTakesLastIndex` shows that a repeated id ends at
  its last index.
- `ColumnOrder.BulkReorderPermutation` states what holds when the list
  names every task of the column exactly once.

## Model

| member | source | states |
|---|---|---|
| Text.TrimStart | server/api/user.ts:38 | the result is a suffix of the input, only whitespace (JavaScript's `\s` set) was dropped, and it does not start with whitespace |
| Text.TrimEnd | server/api/user.ts:38 | the result is a prefix of the input, only whitespace was dropped, and it does not end with whitespace |
| Text.Trim | server/api/user.ts:38 | `trim()`: the result is a contiguous infix of the input with only whitespace before and after it, and neither of its ends is whitespace |
| Text.TrimOfTrimmed | server/api/user.ts:38 | trimming a string with non-blank ends changes nothing |
| Text.ToLower | server/api/user.ts:38 | `toLowerCase()` on Basic Latin, Latin-1 and basic Cyrillic: it keeps the length and lowers each character |
| Text.LowerCharFacts | server/api/user.ts:38 | lowering never creates or removes whitespace, and lowering twice is lowering once |
| Text.Split | server/api/user.ts:117 | `split(sep)` gives at least one piece and no piece contains the separator |
| Text.JoinSplit | server/api/user.ts:117 | joining the pieces of a split with the separator gives the original string back |
| Text.SplitThree | server/api/user.ts:105-109 | three separator-free texts joined by the separator split back into exactly those three |
| Text.ReplaceAll | server/api/user.ts:62-69 | `replace(/x/g, y)` keeps the length and replaces exactly the occurrences of `x` |
| Text.RemoveAll | server/api/user.ts:66 | `replace(/=/g, "")` leaves no occurrence of the character, keeps every other character with its count, and leaves a string without it unchanged |
| Text.RemoveAllConcat | server/api/user.ts:66 | removal works piece by piece, so the remaining characters keep their order |
| Text.Repeat | server/api/user.ts:72 | `"=".repeat(n)` has length n and only that character |
| Email.NormalizeEmail | server/api/user.ts:37-39 | the normalised address is the lowered trim of the input: no longer than the input, with non-blank ends and nothing left to lower (within the case mapping of `Text.ToLower`) |
| Email.NormalizeIsLoweredSpan | server/api/user.ts:37-39 | the normalised address is the lowered form of an infix of the input that has only whitespace around it |
| Email.NormalizeIdempotent | server/api/user.ts:37-39 | normalising twice gives the same as normalising once |
| Email.IsValidEmail | server/api/user.ts:41-44 | the validation regular expression, stated as a search for the first `@` and a later dot |
| Email.ValidEmailMatchesPattern | server/api/user.ts:41-44 | the check accepts a string if and only if it splits as `[^\s@]+@[^\s@]+\.[^\s@]+` |
| Email.ValidEmailMatches | server/api/user.ts:41-44 | every accepted address matches the pattern |
| Email.PatternMatchIsValid | server/api/user.ts:41-44 | every string matching the pattern is accepted |
| Email.NoDotRejected | server/api/user.ts:41-44 | an address whose domain has no dot is rejected |
| Email.BareHostRejected | server/api/user.ts:41-44 | `john@localhost` is rejected |
| Email.DottedDomainAccepted | server/api/user.ts:41-44 | `john@example.com` is accepted |
| Base64Url.Sextets | server/api/user.ts:62-69 | the 6-bit groups of the bytes number four per three bytes, plus two or three for a partial group |
| Base64Url.SymbolValue | server/api/user.ts:71-75 | a character Node's decoder accepts is a symbol of the standard or the URL-safe alphabet |
| Base64Url.SymbolValueInverts | server/api/user.ts:71-75 | every symbol of either alphabet decodes to its own value |
| Base64Url.SextetsRoundTrip | server/api/user.ts:62-75 | regrouping the 6-bit groups of the bytes into bytes gives the bytes back |
| Base64Url.Encode | server/api/user.ts:62-69 | `base64url(b)` is exactly the URL-safe symbols of b's 6-bit groups, with no padding |
| Base64Url.FromSextets | server/api/user.ts:71-75 | regrouping 6-bit groups gives three bytes for every four groups, rounded down |
| Base64Url.NodeSymbols | server/api/user.ts:74 | Node's decoder reads at most one group per character, and on a text of symbols only it reads exactly each symbol's value |
| Base64Url.NodeDecode | server/api/user.ts:74 | `Buffer.from(s, "base64")` yields at most three bytes per four characters |
| Base64Url.PaddingAddsNoSymbols | server/api/user.ts:72-74 | the `=` padding never adds a group to what Node's decoder reads |
| Base64Url.Decode | server/api/user.ts:71-75 | `base64urlToBuffer(s)` yields at most three bytes per four characters of `s` |
| Base64Url.NodeSymbolsOfText | server/api/user.ts:71-75 | Node's decoder reads the standard symbols back and stops at the `=` padding |
| Base64Url.UrlTextBack | server/api/user.ts:71-75 | mapping `-` and `_` back restores the standard symbols |
| Base64Url.NoLoneSymbol | server/api/user.ts:62-69 | an unpadded encoding never has length 1 modulo 4 |
| Base64Url.RoundTrip | server/api/user.ts:62-75 | `base64urlToBuffer(base64url(b)) == b` for every byte sequence |
| Base64Url.EncodeAlphabet | server/api/user.ts:62-69 | the encoding uses only `A-Z a-z 0-9 - _`, so never `=`, `+`, `/`, `.` or `$` |
| SessionToken.Seconds | server/api/user.ts:99 | `Math.floor(Date.now() / 1000)`: the whole second that contains the clock |
| SessionToken.FullPayload | server/api/user.ts:100 | the signed claims are the caller's claims plus `iat` = now and `exp` = now + ttl, which override claims of the same name |
| SessionToken.SignToken | server/api/user.ts:93-110 | the token splits on dots into the encoded header, the encoded full payload and the encoded HMAC of the first two parts |
| SessionToken.ThreeParts | server/api/user.ts:105-109 | three base64url texts joined by dots split back into those three |
| SessionToken.VerifyToken | server/api/user.ts:112-139 | an accepted token has three parts, a signature equal to the HMAC of its first two parts, a non-null payload that the codec parsed, and no numeric `exp` before now |
| SessionToken.SignVerifyRoundTrip | server/api/user.ts:93-139 | a freshly signed token verifies to the claims plus `iat`/`exp` while now ≤ exp, and to null after |
| SessionToken.VerifyParts | server/api/user.ts:117-135 | a token with a matching signature and an object payload is accepted exactly while its `exp`, if numeric, has not passed |
| SessionToken.ExpiryOfFull | server/api/user.ts:100 | the `exp` of a signed payload is the signing second plus the lifetime |
| SessionToken.WrongSecretRejected | server/api/user.ts:123-127 | a token checked under another secret whose HMAC differs is rejected |
| SessionToken.TamperedPayloadRejected | server/api/user.ts:123-127 | swapping in another payload part breaks the signature check |
| SessionToken.HeaderNotChecked | server/api/user.ts:117-135 | the header part is never inspected: any header with a valid signature is accepted |
| SessionToken.NonObjectPayloadAccepted | server/api/user.ts:130-135 | a payload that parses to a number is accepted, since `exp` is only read when numeric |
| Password.HashPassword | server/api/user.ts:141-145 | the stored hash starts with `scrypt$` and splits on `$` into `scrypt`, the encoded salt and the encoded key |
| Password.HashShape | server/api/user.ts:144 | the `scrypt$salt$hash` layout splits into its three fields |
| Password.VerifyPassword | server/api/user.ts:147-163 | a stored value without the `scrypt$` prefix is compared as plain text; other than 3 or 4 fields is refused; with 3 or 4 fields the password is accepted if and only if the key derived from the decoded next-to-last field equals the decoded last field |
| Password.VerifyHashed | server/api/user.ts:141-163 | a hash made by `hashPassword` accepts exactly the passwords whose derived key matches, in particular the original password |
| Password.FourPartForm | server/api/user.ts:151-159 | the four-field form `scrypt$params$salt$hash` is checked against its last two fields |
| Password.TwoPartsRejected | server/api/user.ts:151-152 | `scrypt$` followed by a single field is refused |
| Password.LegacyPlainText | server/api/user.ts:149 | a stored value not starting with `s` is compared by equality |
| Users.PickUserPublic | server/api/user.ts:46-60 | the public view has exactly id, email, name and creation date with the row's values, `updatedAt` only when present, and never the password hash |
| Users.FindByEmail | server/api/user.ts:322-332 | the lookup by unique email finds a row if and only if one has that email, and returns that row |
| Users.RegisterInput | server/api/user.ts:254-273 | register's checks in order (missing field, email shape, password length) are all 400, and pass exactly for a non-empty normalised valid email, a non-blank name and 8 or more characters |
| Users.MissingFieldFirst | server/api/user.ts:257-262 | a blank name gives "Missing required fields" whatever else is wrong |
| Users.PasswordLengthBoundary | server/api/user.ts:268-273 | "1234567" is refused and "12345678" accepted |
| Users.InsertKeepsWellFormed | server/api/user.ts:275-298 | adding a user with a fresh id and an unused email keeps ids and emails unique |
| Users.Login | server/api/user.ts:309-357 | 400 exactly for a missing field; success exactly when the email exists and the password checks; otherwise 401 "Invalid credentials" |
| Users.SubjectOf | server/api/user.ts:174 | the subject read from a payload is a non-empty string |
| Users.Authenticate | server/api/user.ts:165-194 | every failure is 401; success returns a stored row, and only for a token that verifies |
| Users.LoginAfterRegister | server/api/user.ts:249-357 | a successful registration can log in with the same email and password |
| Users.AuthenticateAfterLogin | server/api/user.ts:341-346 | the token a login hands out authenticates the same user until seven days have passed, and not after |
| Users.AuthenticateVerified | server/api/user.ts:165-194 | a non-empty token that does not verify fails, and one that verifies to a payload naming a stored user yields that user's row |
| Users.AuthenticateSigned | server/api/user.ts:165-194 | a token signed for a stored user authenticates exactly that user while it has not expired |
| Users.WrongPasswordRefused | server/api/user.ts:334-339 | a password whose derived key differs from the stored one is refused |
| Users.PatchUser | server/api/user.ts:411-432 | PATCH fails with 400 exactly for nothing to update or a short password; id, email and creation date are kept; `updatedAt` becomes the clock; the name changes only when given; the hash changes only with a password |
| Users.PatchedPasswordChecks | server/api/user.ts:424-431 | after a password change the new password is accepted and an old one only if its derived key matches |
| Users.PatchKeepsWellFormed | server/api/user.ts:434-445 | rewriting a user's own row keeps ids and emails unique |
| Users.UserStore.Register | server/api/user.ts:249-304 | invalid input gives register's 400 with the table unchanged; a taken email gives 409; otherwise the new row is stored and its public view returned |
| Users.UserStore.UpdateSelf | server/api/user.ts:407-456 | 401 when not signed in; otherwise PATCH's answer, with only the caller's row rewritten |
| Users.UserStore.DeleteSelf | server/api/user.ts:461-477 | 401 when not signed in; otherwise exactly the caller's row is removed |
| Access.RoleForProject | server/api/project.ts:263-270 | OWNER when the caller owns the project, else the role of the member row, else none |
| Access.ProjectAccess | server/api/project.ts:272-294 | 404 exactly when the project is missing; 403 exactly when it exists and the caller is neither owner nor member; otherwise the project and the caller's role |
| Access.RoleMatchesTables | server/api/project.ts:263-294 | with consistent tables the resolved role is OWNER iff owner, MEMBER iff a non-owner with a row, none iff neither |
| Access.UpsertMember | server/api/project.ts:802-815 | the upsert adds a MEMBER row when none exists and leaves an existing row alone |
| Access.UpsertIdempotent | server/api/project.ts:802-815 | upserting twice is upserting once |
| Access.UpsertGrantsAccess | server/api/project.ts:802-815 | after the upsert the tables stay consistent and the user has access |
| Invitations.FindByToken | server/api/project.ts:148-157 | the lookup by unique token finds the row with that token if there is one |
| Invitations.FindByProjectEmail | server/api/project.ts:630-633 | the lookup by (project, email) finds the single row for that pair if there is one |
| Invitations.InvitationForUser | server/api/project.ts:132-177 | 400 iff neither token nor id; 404 iff the row is missing; 409 iff it is not pending; 403 for another email; success exactly for a pending row addressed to the caller's normalised email, and it returns that row |
| Invitations.RequestForOwner | server/api/project.ts:179-227 | 400 iff no id; 404 iff missing; 403 iff pending but the caller is not the owner; 409 "Not a request" iff the owner's pending row has no sender or the owner sent it; success exactly for a pending row of the caller's project that someone else sent |
| Invitations.Reissued | server/api/project.ts:754-763 | a re-issued row keeps its id, project and email, and is pending again with the new token and sender, no acceptor and no answer time |
| Invitations.AcceptedBy | server/api/project.ts:793-800 | an accepted row keeps its id, project, email, token and sender, and records ACCEPTED, the acceptor and the time |
| Invitations.DeclinedAt | server/api/project.ts:852-858 | a declined row keeps its id, project, email, token and sender, and records DECLINED, no acceptor and the time |
| Invitations.RevokedAt | server/api/project.ts:943-946 | a revoked row keeps every field but its status and answer time, which become REVOKED and the time |
| Invitations.RewriteKeepsValid | server/api/project.ts:793-800 | rewriting a row without touching its id, project, email or token keeps ids, tokens and (project, email) pairs unique |
| Invitations.ReissueKeepsValid | server/api/project.ts:754-772 | re-issuing a row with an unused token keeps the table consistent |
| Invitations.InsertKeepsValid | server/api/project.ts:729-751 | inserting a row with a fresh id, an unused token and a new (project, email) pair keeps the table consistent |
| Invitations.AnsweredInvitationIsClosed | server/api/project.ts:165-170 | an answered invitation can be neither accepted nor declined again (409) |
| Invitations.AnsweredRequestIsClosed | server/api/project.ts:211-216 | an answered request can be neither approved nor rejected again (409) |
| Invitations.OwnInvitationIsNotARequest | server/api/project.ts:222-224 | a row the owner sent is not an access request (409 "Not a request") |
| Invitations.ProjectStore.constructor | server/api/project.ts:557-591 | the store starts with empty, consistent tables |
| Invitations.ProjectStore.Create | server/api/project.ts:557-591 | 400 for a blank name; otherwise the project is stored with an OWNER row for its creator |
| Invitations.ProjectStore.RequestAccess | server/api/project.ts:594-671 | an error exactly for a blank id (400) or a missing project (404), with no write; the owner gets OWNER and a member their role, with no write; a pending row from someone else gives ALREADY_INVITED with no write; otherwise PENDING, and the caller's row is created or reset to pending with the new token |
| Invitations.ProjectStore.Invite | server/api/project.ts:674-779 | 400 for a missing id or a missing or invalid email; then 404 for a missing project and 403 for anyone but the owner; 409 for the owner's own email or an address of the owner or a member; success exactly when all checks pass, and then the row for the address is re-issued with the new token, or created |
| Invitations.ProjectStore.StoreInvitation | server/api/project.ts:729-772 | the (project, email) row is re-issued as pending with the new token and sender, or a new pending row is inserted |
| Invitations.ProjectStore.Accept | server/api/project.ts:782-839 | the guard's error leaves everything unchanged; otherwise the row becomes ACCEPTED by the caller and the caller's membership is upserted |
| Invitations.ProjectStore.Decline | server/api/project.ts:842-862 | the guard's error leaves everything unchanged; otherwise the row becomes DECLINED with no acceptor |
| Invitations.ProjectStore.Approve | server/api/project.ts:865-900 | the guard's error leaves everything unchanged; otherwise the row becomes ACCEPTED by the requester and the requester's membership is upserted |
| Invitations.ProjectStore.Reject | server/api/project.ts:903-921 | the guard's error leaves everything unchanged; otherwise the row becomes DECLINED |
| Invitations.ProjectStore.Revoke | server/api/project.ts:924-949 | 400 "Missing projectId", 400 "Missing invitationId", the access error (404/403), 403 for a non-owner, then the not-found error for a missing row, all with no write; succeeds exactly for the owner naming an existing row, which becomes REVOKED whatever its status or project |
| Invitations.ProjectStore.RemoveMember | server/api/project.ts:952-983 | 400 "Missing projectId", 400 "Missing memberUserId", the access error, 403 for a non-owner, 409 "Cannot remove owner", then the not-found error for a missing row, all with no write; success exactly for the owner removing an existing non-owner row, which is deleted |
| Invitations.ProjectStore.Leave | server/api/project.ts:1037-1061 | 400 "Missing id", then the access error, then 409 for the owner, all with no write; a member's leave deletes exactly their row |
| Access.RemoveKeepsValid | server/api/project.ts:978-980 | deleting a membership row that is not the owner's keeps the tables consistent |
| ColumnOrder.Renumber | server/api/task.ts:193-198 | writing `position = i` along a list keeps every row and changes only positions |
| ColumnOrder.RenumberLast | server/api/task.ts:193-198 | an id ends at the index of its last occurrence in the list |
| ColumnOrder.RenumberDense | server/api/task.ts:193-198 | a duplicate-free list of stored ids is left dense: the i-th id has position i |
| ColumnOrder.RenumberKeepsColumns | server/api/task.ts:193-198 | renumbering changes no column's membership |
| ColumnOrder.ReindexProperties | server/api/task.ts:186-199 | after reindexing, the column is dense in query order, strictly earlier positions stay earlier, and every task of other columns is unchanged |
| ColumnOrder.ReindexEmpty | server/api/task.ts:186-199 | reindexing an empty column writes nothing |
| ColumnOrder.Without | server/api/task.ts:225 | filtering out the moved id removes it and keeps every other id |
| ColumnOrder.WithoutKeepsNoDup | server/api/task.ts:225 | filtering keeps the list duplicate-free |
| ColumnOrder.WithoutKeepsAscending | server/api/task.ts:225 | filtering keeps the list in ascending position |
| ColumnOrder.InsertAt | server/api/task.ts:230 | `splice(idx, 0, id)` puts the id at idx and shifts later ids by one |
| ColumnOrder.InsertKeepsNoDup | server/api/task.ts:230 | splicing in a new id keeps the list duplicate-free |
| ColumnOrder.ClampIndex | server/api/task.ts:226-228 | the index is within 0..len, len for a non-finite index, 0 below 0, len above len, and the whole part of the index in between |
| ColumnOrder.MoveOrderEnumerates | server/api/task.ts:219-235 | once the moved task has the destination status, the spliced list names every task of the destination column exactly once |
| ColumnOrder.MoveDestination | server/api/task.ts:219-242 | after a move the destination column is dense in the spliced order, the moved task has the new status and sits at the clamped index, and no row is added or lost |
| ColumnOrder.MoveShiftsOthers | server/api/task.ts:225-242 | the other tasks of the destination keep their order, shifted by one from the insertion index on |
| ColumnOrder.MoveKeepsOrder | server/api/task.ts:225-242 | the other tasks of the destination keep their relative order, strictly |
| ColumnOrder.MoveFrame | server/api/task.ts:219-242 | a move leaves every task outside the destination column unchanged, apart from the moved task |
| ColumnOrder.MoveSource | server/api/task.ts:244-246 | after a column change, both the source and the destination are dense, and every task of a third column is unchanged |
| ColumnOrder.SameColumnMove | server/api/task.ts:244-246 | a move within one column touches only that column |
| ColumnOrder.BulkReorderPermutation | server/api/task.ts:607-612 | a list naming every task of the column once leaves the column dense in the list's order |
| ColumnOrder.PartialReorderDuplicates | server/api/task.ts:597-612 | a list naming only part of a column is accepted and can leave two tasks at the same position |
| ColumnOrder.RepeatedIdTakesLastIndex | server/api/task.ts:597-612 | a repeated id is accepted and ends at its last index |
| ColumnOrder.AfterMaxIsLast | server/api/task.ts:177-184 | max + 1 is past every task of the column, and 0 for an empty column |
| ColumnOrder.DenseMax | server/api/task.ts:177-184 | in a dense column, max + 1 is the column's size |
| ColumnOrder.AppendKeepsDense | server/api/task.ts:481-494 | appending at max + 1 keeps a dense column dense and lists the new task last |
| ColumnOrder.InsertAscending | server/api/task.ts:188-192 | inserting an id before the first strictly later position keeps the list in ascending order |
| ColumnOrder.InsertListed | server/api/task.ts:188-192 | that insertion keeps the list inside the column, duplicate-free and ascending, with one more id |
| ColumnOrder.DeleteProperties | server/api/task.ts:642-646 | after delete and reindex the deleted task is gone, its column is dense, and other columns are unchanged |
| ColumnOrder.StatusChangeProperties | server/api/task.ts:726-746 | after a status-changing PATCH the patched task is last in its new column, the old column is dense, and every other column is unchanged |
| TaskApi.TextOf | server/api/task.ts:438-444 | `x?.trim()`: the trimmed string for a string field, "" for a missing or `null` one |
| TaskApi.DateOf | server/api/task.ts:473-478 | a date exactly for a non-empty date string, and then the parsed one; otherwise none |
| TaskApi.CreateChecks | server/api/task.ts:438-470 | create's checks in order: 400 "Missing projectId", 400 "Missing title", the access error, 400 "Assignee is not in project"; they pass exactly when none of these applies |
| TaskApi.PatchAssignee | server/api/task.ts:691-696 | the assignee a PATCH checks: the trimmed string for a string field, "" otherwise |
| TaskApi.IndexOf | server/api/task.ts:521 | `typeof toIndex === "number" ? toIndex : 0` |
| TaskApi.NonEmpty | server/api/task.ts:487 | `s \|\| null`: none exactly for the empty string |
| TaskApi.RequireProjectAccess | server/api/task.ts:129-149 | 404 exactly for a missing project, 403 exactly for a caller who is neither owner nor member; else OWNER for the owner or the row's role |
| TaskApi.AccessChecksAgree | server/api/task.ts:129-149 | the `/api/task` access check gives the same answer as the project handler's |
| TaskApi.IsOverdue | server/api/task.ts:153-154 | overdue means a due date before now on a task that is not DONE |
| TaskApi.IsOverdueAsWritten | server/api/task.ts:153-154 | the written test is the intended one minus a due date of exactly 0 ms |
| TaskApi.EpochDueDateMissed | server/api/task.ts:153-154 | a task due at the epoch is overdue, yet the written test says it is not |
| TaskApi.OverdueDiffersOnlyAtEpoch | server/api/task.ts:153-154 | the written test and the intended one differ exactly for a due date at the epoch |
| TaskApi.OverdueIsStable | server/api/task.ts:153-154 | an overdue task stays overdue as time passes, and a DONE task is never overdue |
| TaskApi.MapTask | server/api/task.ts:151-175 | the view carries the row, and `isOverdue` holds exactly when it is due before now and not DONE |
| TaskApi.DecodePatch | server/api/task.ts:675-701 | each PATCH field is left out when absent; `null` clears a nullable field; an empty date string leaves the date; a blank assignee unassigns |
| TaskApi.ApplyPatch | server/api/task.ts:747-758 | each supplied field takes its new value and each absent one keeps the old; id, project, status, position and author are kept; an empty PATCH changes nothing |
| TaskApi.PatchIdempotent | server/api/task.ts:747-758 | applying the same PATCH twice is applying it once |
| TaskApi.Board.constructor | server/api/task.ts:186 | the board starts empty |
| TaskApi.Board.ListColumn | server/api/task.ts:187-191 | the query returns the column's ids, each once, in ascending position |
| TaskApi.Board.GetMaxPosition | server/api/task.ts:177-184 | the column's greatest position, or -1 for an empty column |
| TaskApi.Board.WritePositions | server/api/task.ts:193-198 | the loop's writes leave the table equal to `Renumber` of the list |
| TaskApi.Board.ReindexColumn | server/api/task.ts:186-199 | the table becomes `Renumber` of a valid query order of the column |
| TaskApi.Board.MoveTaskTransactional | server/api/task.ts:201-247 | 404 with no write exactly when the named task is missing or in another project; otherwise the table becomes `MoveResult` of valid query orders |
| TaskApi.Board.AddAtEnd | server/api/task.ts:481-494 | the new row is stored at the column's max + 1 |
| TaskApi.Board.ChangeColumn | server/api/task.ts:726-746 | the row is placed at max + 1 of its new column and the old column is reindexed |
| TaskApi.Board.CreateTask | server/api/task.ts:435-512 | an error exactly when `CreateChecks` gives one, and then that error with no write; otherwise the new task is stored with its defaults, trimmed fields and position max + 1 |
| TaskApi.CreateAppends | server/api/task.ts:481-494 | a created task sorts after every task of its column, is at 0 in an empty column, and keeps a dense column dense |
| TaskApi.Board.MoveTask | server/api/task.ts:515-566 | 400 for missing fields, the access error, 404 for a task outside the project, each with no write; success exactly when all checks pass, and then the move's result, with a missing index read as 0 |
| TaskApi.Board.BulkReorder | server/api/task.ts:569-616 | 400 for missing fields, the access error, then 400 "orderedIds contains invalid task id", all with no write; otherwise each listed id gets its index |
| TaskApi.Board.CheckIds | server/api/task.ts:597-605 | the validation passes exactly when every id is a task of the column |
| TaskApi.Board.DeleteTask | server/api/task.ts:619-649 | the POST `delete` action and the DELETE method (lines 788-818) behave alike: 400, the access error, then 404, with no write; otherwise the named task is removed and its column reindexed |
| TaskApi.Board.PatchTask | server/api/task.ts:657-783 | 400 "Missing id", 404 "Task not found", the access error on the task's project, 400 "Assignee is not in project", each with no write; a status change moves the patched task to max + 1 and reindexes the old column; otherwise only the given fields change |
| HumanError.HasCyrillic | app/utils/human-error.ts:27 | true exactly when some character is in `[А-Яа-яЁё]` |
| HumanError.Or | app/utils/human-error.ts:36-37 | `a \|\| b`: a when a is truthy, else b; falsy exactly when both are |
| HumanError.Coalesce | app/utils/human-error.ts:39 | `a ?? b`: a when a is neither null nor undefined, else b |
| HumanError.StatusOf | app/utils/human-error.ts:39 | the nested `data.statusCode` when it is set, else the top-level `statusCode` |
| HumanError.Humanize | app/utils/human-error.ts:29-50 | a string with Cyrillic is shown as is; any other string shows its translation or the fallback |
| HumanError.ObjectMessagePrecedence | app/utils/human-error.ts:36-49 | for an error object whose status is not 401 or 403: a truthy `data.statusMessage` decides, else a truthy `message`, else `data.statusCode`; a chosen string is treated as that string alone, and a chosen non-string gives the fallback |
| HumanError.HumanizeRange | app/utils/human-error.ts:29-50 | the result is the fallback, a translation from the message table, or Russian text the error itself carries |
| HumanError.TranslationIsCyrillic | app/utils/human-error.ts:10-25 | every translation in the table contains Cyrillic |
| HumanError.HumanizeIdempotent | app/utils/human-error.ts:29-50 | humanising a shown message again changes nothing, given a Russian fallback |
| HumanError.StatusMessages | app/utils/human-error.ts:39-41 | an effective status of 401 or 403 gives the fixed message whatever the text says |
| HumanError.NestedZeroStatusWins | app/utils/human-error.ts:39 | `??` takes a nested status of 0 over a top-level 401 |
| HumanError.EmptyStatusMessageFallsThrough | app/utils/human-error.ts:36-37 | an empty `data.statusMessage` falls through to `message` |
| HumanError.NumericMessageGivesFallback | app/utils/human-error.ts:43-49 | a numeric message (a bare `data.statusCode`) gives the fallback |
| HumanError.LookupAsWritten | app/utils/human-error.ts:32-46 | reading the table as a plain object finds its own entries, and also the names every object inherits |
| HumanError.HumanizeAsWritten | app/utils/human-error.ts:29-50 | as written, an inherited member can only be shown for one of the inherited names |
| HumanError.InheritedKeyLeaks | app/utils/human-error.ts:32 | the string "toString" is shown as an inherited function as written, and as the fallback by `Humanize` |
| HumanError.AsWrittenAgrees | app/utils/human-error.ts:29-50 | away from the inherited names, the written function and `Humanize` agree |

## Findings

| source | as written | input that shows it | evidently intended | confidence | as-written member | corrected member |
|---|---|---|---|---|---|---|
| server/api/task.ts:153-154 | `!!due` treats a due time of 0 ms as "no due date" | a TODO task due at 1970-01-01T00:00:00Z, at any later clock | every task with a due date in the past that is not DONE is overdue | not executed; low impact | TaskApi.IsOverdueAsWritten, TaskApi.EpochDueDateMissed | TaskApi.IsOverdue, TaskApi.OverdueIsStable |
| app/utils/human-error.ts:32-46 | `MESSAGE_MAP[text]` on a plain object also finds inherited members such as `toString` | the error string "toString" (or a `statusMessage` of "constructor") | unknown text gives the fallback | not executed; low impact | HumanError.HumanizeAsWritten, HumanError.InheritedKeyLeaks | HumanError.Humanize, HumanError.HumanizeRange |

## Left out

- GET handlers of all three APIs (listing, `one`, `stats`, `me`, `attachTaskCounts`): these are read-only query and response shaping.
- Logout, cookies, `getAuthSecret` and the test-only `legacyTestCreateUser`: plumbing and a test backdoor. The secret is a parameter.
- PATCH of a project and DELETE of a whole project (`server/api/project.ts:991-1036`, `1063-1068`): these are outside the modelled state machine.
- HMAC-SHA256, scrypt, `randomBytes`, JSON and UTF-8 are opaque function parameters. `timingSafeEqual` is plain equality, because constant time cannot be expressed.
- The 64-byte length of the derived key is not modelled. The length test in `verifyPassword` is subsumed by equality.
- The JSON codec is required to round-trip every value. Malformed JSON and thrown parse errors appear only as `None`.
- Non-string request fields that make `.trim()` throw (a 500 in the server) are not modelled. Absent string fields are read as "".
- Enumeration strings are not validated. An unknown `status` or `priority` string is not modelled, and neither is an invalid date string giving an invalid `Date`. The types admit only valid values.
- Concurrency and isolation: each transaction is atomic. The status-changing PATCH reads the maximum position outside its transaction (`server/api/task.ts:727`). The model reads it in the same atomic step.
- The 404 after a successful move (`server/api/task.ts:562-563`) cannot be reached in the atomic model.
- Accept and approve do not re-check PENDING at write time. Only the sequential effect is modelled.
- `updatedAt`: `Users.PatchUser` stamps `updatedAt` with the clock, as the database does. The model's task rows have no `updatedAt` column, so the stamp a task receives on create, move, reorder or PATCH is not modelled.
- Users.RegisterInput and Users.PatchUser: the password length is counted in characters of the model string, not in UTF-16 code units as JavaScript counts them.
- Text.ToLower / Email.NormalizeEmail: the case mapping covers only Basic Latin, Latin-1 and basic Cyrillic (U+0400 to U+042F). JavaScript lowers every script, and turns U+0130 into two code units. So `Ł@x.pl` and `ł@x.pl` are one user in the server but two in the model, and the length bounds hold only within the modelled mapping.
- Invitations.ProjectStore.Revoke is modelled as written: it does not check that the row is pending or belongs to the named project. A missing row ends in an error with no write, standing for Prisma's "record not found".
- P2002/P2025 error codes are modelled only as "row exists / row is absent" outcomes.
- `app/middleware/auth.global.ts`, `app/lib/prisma.ts` and `nuxt.config.ts` are routing, database and build configuration, so they are not part of this model.
