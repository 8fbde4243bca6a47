# Taskline backend core in Dafny

This project models the decision and state-transition logic of the Taskline
project-management backend, with the database, JWT, bcrypt, abuse-protection and
email calls replaced by parameters:

- the **project status aggregator** (`updateProjectStatus`), a status derived
  from a project's non-archived tasks;
- the **account and token lifecycle** (`registerUser`, `loginUser`,
  `verifyEmail`, `resetPasswordRequest`,
  `verifyResetPasswordTokenAndResetPassword`), as pure transitions over a store
  of users and a verification ledger, with the current time `now` in
  milliseconds;
- the **authentication middleware**, which extracts a token from a cookie or a
  `Bearer` header and lets a request through or answers 401;
- the **project handlers** (`createProject`, `getProjectDetails`,
  `getProjectTasks`): workspace membership check, member snapshot, tag split,
  project-id append, and the read-side membership gate;
- the **membership repair script** (`runMigration`), as nested loops over
  workspaces and projects with a failure that ends the run;
- the **project schema**: status and role enumerations, defaults, progress
  bounds, trimming and required fields.

Modules, one per source file or shared concept:

| file | module | models |
|---|---|---|
| base.dfy | `Base` | `Option`, document ids, first-match `findOne` |
| strings.dfy | `Strings` | JavaScript `split`, `startsWith`, `trim` |
| schema.dfy | `Schema` | backend/models/project.js |
| tasks.dfy | `Tasks` | the task query shared by the aggregator and `getProjectTasks` |
| rollup.dfy | `StatusRollup` | backend/controllers/updateProjectStatus.js |
| accounts.dfy | `Accounts` | backend/controllers/auth-controller.js |
| lifecycle.dfy | `Lifecycle` | properties relating several auth handlers |
| gate.dfy | `AuthGate` | backend/middleware/auth-middleware.js |
| projects.dfy | `Projects` | backend/controllers/project.js |
| migration.dfy | `Migration` | backend/fixprojectmembers.js |

Modelling choices:

- Every collection is a sequence in the database's natural order. The id of a
  user, workspace or project is its position in that sequence. No modelled
  operation deletes one of these, so positions are stable. `findOne` is the
  first match (`Base.FirstMatch`).
- The verification ledger is a sequence of `Entry(userId, token, expiresAt)`.
  An entry has no purpose field. The purpose exists only in the token payload.
- A `Verifier` maps each token whose signature verifies to its payload. The
  payload carries the `exp` claim that `jwt.sign` adds for `expiresIn`, in whole
  seconds. `jwt.verify` at time `now` returns only for a token in the map
  whose `exp`, if any, is later than the current whole second
  (`Accounts.Accepts`). Otherwise it throws. The token that `jwt.sign`
  produces is a parameter.
- bcrypt reads only the first 72 bytes of a password's UTF-8 encoding. A digest
  is the symbolic value `Bcrypt(key)` of those bytes, and `Compare(p, d)` holds
  exactly when `p` has the same key.
- The abuse-protection decision (`denied`) and email delivery (`sent`) are
  boolean parameters.
- A handler is a function that returns its HTTP status code, its message and
  the state it leaves behind. A thrown exception that the handler's catch-all
  turns into 500 appears as that 500 reply.
- A project's `status` is stored as a string. `Project.create` validates it
  against the enumeration. The aggregator writes it with `findByIdAndUpdate`,
  which runs no validators.

Facts about the code that the model keeps:

- The repair script stops at its first failure, through the catch at
  backend/fixprojectmembers.js:29-32, and exits with status 1. Any of its
  database operations can fail, including a project query after the last save.
  A save also fails when the loaded document fails the schema's validators.
  `Migration.Migrate` models all three.
- Consuming a ledger entry is a `findOne` followed by a delete by id. It is not
  an atomic find-and-delete. The model is sequential, and single use holds only
  when the ledger holds one entry for the user and token
  (`Lifecycle.VerifyEmailSingleUse`).
- A new project's member list is a verbatim copy of the workspace's list, in
  the same order and with the same roles. It is not merely an equal set.

Behaviour the proofs make explicit:

- The aggregator writes `"Not Started"` (backend/controllers/updateProjectStatus.js:9)
  and `"Pending"` (line 21). Neither value is in the schema's status enumeration
  (backend/models/project.js:18). After a recomputation with no live task, the
  project no longer passes its schema's validators
  (`StatusRollup.EmptyProjectLeavesEnum`). Every later run of the repair script
  then fails, at the latest at that project's save (`Migration.StaleStatusFailsRun`).
- The verification and reset tokens expire in `jwt.verify` no later than their
  ledger entries, because each token is signed before its entry is written and
  both have the same lifetime. An expired token therefore gets 500 from the
  catch-all, and the ledger's "Token expired" answer is never reached for it
  (`Lifecycle.RegisterThenVerify`, `Lifecycle.ResetThenLogin`).
- Two passwords that share their first 72 UTF-8 bytes are interchangeable
  (`Accounts.LongPasswordsCollide`).
- `loginUser` never reads `isEmailVerified`, so a freshly registered account can
  log in before verifying its email (`Lifecycle.RegisterThenLoginUnverified`).
- The middleware checks no token purpose. A verification or reset token that
  `jwt.verify` accepts authenticates like a session token
  (`AuthGate.PurposeNotChecked`).
- A `"Bearer "` header with nothing after it, or with a second space, yields no
  token (`AuthGate.EmptyBearerField`).

## Model

| member | source | states |
|---|---|---|
| Base.FirstMatch | backend/controllers/auth-controller.js:22 | `findOne` gives the first matching position, or nothing exactly when no element matches |
| Strings.Split | backend/controllers/project.js:40 | `split` on one character gives one more piece than there are separators, and no piece contains the separator |
| Strings.JoinSplit | backend/controllers/project.js:40 | joining the pieces of a split with the separator gives back the original string |
| Strings.SplitJoin | backend/controllers/project.js:40 | splitting a join of separator-free pieces gives back the pieces, so split and join are inverse |
| Strings.Trim | backend/models/project.js:5-10 | the trim setter leaves no whitespace at either end |
| Strings.TrimSpec | backend/models/project.js:5-10 | trim removes only whitespace and only at the two ends: the result is an infix with whitespace outside it |
| Strings.TrimIdempotent | backend/models/project.js:5-10 | trimming a stored title or description again changes nothing |
| Schema.CastRole | backend/models/project.js:30-34 | an absent role becomes "member"; a present role is accepted exactly when it is one of the four labels |
| Schema.NewProject | backend/models/project.js:5-40 | creation succeeds exactly when the trimmed title is non-empty, the status is one of the five enum labels, progress is within 0..100, and workspace and creator are given; the result conforms to the schema, with defaults "In Progress", progress 0 and not archived |
| Tasks.Live | backend/controllers/updateProjectStatus.js:6 | the task query returns a task exactly when it is in the collection, belongs to the project and is not archived |
| Tasks.LiveMultiset | backend/controllers/project.js:132-135 | the query returns every matching task as often as it is stored and nothing else |
| Tasks.LiveAppend | backend/controllers/updateProjectStatus.js:6 | the query over two concatenated collections is the concatenation of the two queries |
| Tasks.Insert | backend/controllers/project.js:137 | inserting into a newest-first list keeps it newest first and adds exactly that task |
| Tasks.SortNewestFirst | backend/controllers/project.js:137 | the sort returns a permutation of its input in non-increasing `createdAt` order |
| StatusRollup.RollupCases | backend/controllers/updateProjectStatus.js:8-21 | "Not Started" iff no live task; "Completed" iff some live task and all completed; "In Progress" iff some live task in progress and not all completed; "Pending" iff not all completed and none in progress |
| StatusRollup.RollupPermutation | backend/controllers/updateProjectStatus.js:6-21 | reordering the task collection never changes the status |
| StatusRollup.IrrelevantTaskIgnored | backend/controllers/updateProjectStatus.js:6 | inserting an archived task, or a task of another project, anywhere never changes the status |
| StatusRollup.RollupOutsideEnum | backend/controllers/updateProjectStatus.js:9-21 | of the four written labels only "In Progress" and "Completed" are in the project status enumeration |
| StatusRollup.UpdateProjectStatus | backend/controllers/updateProjectStatus.js:4-26 | on success only the project's status changes, to the recomputed label; a failure is swallowed and changes nothing; other projects never change |
| StatusRollup.UpdateIdempotent | backend/controllers/updateProjectStatus.js:6-21 | recomputing with no task change in between leaves the same state |
| StatusRollup.EmptyProjectLeavesEnum | backend/controllers/updateProjectStatus.js:8-10 | a project with no live task is left with a status that fails its schema's validators |
| Accounts.RemoveAt | backend/controllers/auth-controller.js:152 | deleting the found entry removes exactly that one entry and keeps the others in order |
| Accounts.UpdateUser | backend/controllers/auth-controller.js:148-150 | an update by id changes only that user and is a no-op for a missing id |
| Accounts.CompareHash | backend/controllers/auth-controller.js:89 | a password matches the digest computed from it |
| Accounts.LongPasswordsCollide | backend/controllers/auth-controller.js:89 | two passwords that share their first 72 UTF-8 bytes match each other's digests, whatever follows |
| Accounts.ShortAsciiDistinct | backend/controllers/auth-controller.js:89 | for ASCII passwords of at most 72 characters, a password matches another's digest exactly when they are equal |
| Accounts.RegisterUser | backend/controllers/auth-controller.js:11-69 | denial gives 403 and a known email 400 "Email already in use", both with no change; a missing password gives 500 with no change; otherwise, when a password is given, one unverified user with a matching digest and one 12-hour entry are added; 201 exactly when that happened and the email was sent, 500 with the additions kept when it was not |
| Accounts.LoginUser | backend/controllers/auth-controller.js:74-120 | missing fields give 400, an unknown email 404, a wrong password 400 "Invalid password"; 200 exactly when the first user with that email matches the password, returning the session token and that same first user without the password |
| Accounts.VerifyEmail | backend/controllers/auth-controller.js:126-159 | a token jwt.verify rejects, expired or badly signed, gives 500; a wrong purpose 403 "Invalid token"; no entry 403 "Invalid token"; an expired entry 403 "Token expired"; 200 exactly when the first entry for the user and token is not strictly expired, which marks that user verified and deletes exactly that entry; every failure leaves the store unchanged |
| Accounts.ResetPasswordRequest | backend/controllers/auth-controller.js:164-209 | an unknown user gets 400 "User not found" and an unverified one 400 "Email not verified", with no entry; otherwise exactly one 15-minute entry is added, and the answer is 200 when the email is sent and 500, with the entry kept, when it is not |
| Accounts.ResetPasswordWithToken | backend/controllers/auth-controller.js:214-248 | a token jwt.verify rejects gives 500; a wrong purpose 403 "Invalid token", checked before the password match; a mismatch 400 "Passwords do not match"; a missing or expired entry 403 "Token expired"; a missing password 500; 200 exactly when the entry is found unexpired and a password given, which changes only that user's password and deletes that entry |
| Lifecycle.RegisterPreservesValid | backend/controllers/auth-controller.js:22-46 | registration keeps emails unique and every ledger entry attached to an existing user |
| Lifecycle.VerifyEmailPreservesValid | backend/controllers/auth-controller.js:148-152 | email verification keeps the store invariant |
| Lifecycle.ResetPasswordRequestPreservesValid | backend/controllers/auth-controller.js:182-186 | a reset request keeps the store invariant |
| Lifecycle.ResetPasswordWithTokenPreservesValid | backend/controllers/auth-controller.js:237-241 | a password reset keeps the store invariant |
| Lifecycle.RemoveOnlyMatch | backend/controllers/auth-controller.js:152 | deleting the only entry for a user and token leaves none to find |
| Lifecycle.VerifyEmailSingleUse | backend/controllers/auth-controller.js:136-152 | after a successful verification, repeating the call never succeeds, and answers 403 "Invalid token" while the token is still accepted, when the entry was the only one for its user and token |
| Lifecycle.ResetSingleUse | backend/controllers/auth-controller.js:226-241 | after a successful reset, repeating the call never succeeds, and answers 403 while the token is still accepted, when the entry was the only one for its user and token |
| Lifecycle.RegisterThenVerify | backend/controllers/auth-controller.js:36-46 | a fresh registration's token verifies the account exactly while the token's 12-hour `exp` has not passed; after that the answer is 500, never "Token expired", since the entry written after signing expires no earlier |
| Lifecycle.ResetThenLogin | backend/controllers/auth-controller.js:176-243 | a reset completed with matching passwords succeeds exactly while the 15-minute token has not expired (500 after); then the user logs in with the new password and not with a password whose bcrypt key differs |
| Lifecycle.RegisterThenLoginUnverified | backend/controllers/auth-controller.js:84-92 | a freshly registered, unverified account logs in successfully |
| AuthGate.ExtractToken | backend/middleware/auth-middleware.js:7-10 | a non-empty cookie token wins; otherwise only a header starting with "Bearer " yields a token, which is non-empty and space-free |
| AuthGate.BearerField | backend/middleware/auth-middleware.js:9-10 | with no cookie, the token is the first space-separated field after "Bearer ", when it is non-empty |
| AuthGate.BearerRoundTrip | backend/middleware/auth-middleware.js:9-10 | a header "Bearer <tok>" with a non-empty, space-free tok yields exactly tok |
| AuthGate.EmptyBearerField | backend/middleware/auth-middleware.js:9-10 | the header yields no token exactly when nothing, or a second space, follows "Bearer " |
| AuthGate.Authenticate | backend/middleware/auth-middleware.js:4-29 | no token gives 401 "No token provided", a badly signed or expired token "Invalid or expired token", an unknown user "Invalid user"; the request passes exactly when the token is accepted at that time and names an existing user, with that user minus the password |
| AuthGate.CookieFirst | backend/middleware/auth-middleware.js:7-10 | with a cookie token the header has no effect on the outcome |
| AuthGate.PurposeNotChecked | backend/middleware/auth-middleware.js:16-24 | an unexpired verification or reset token authenticates its user |
| AuthGate.SessionLifetime | backend/controllers/auth-controller.js:94-98 | the session token login signs authenticates its user exactly until its 7-day expiry, as a cookie or as a Bearer header alike |
| Projects.ParseTags | backend/controllers/project.js:40 | absent or empty tags give no tags; otherwise one more tag than commas, none containing a comma |
| Projects.TagsRoundTrip | backend/controllers/project.js:40 | joining the tags with commas gives back the string sent, so nothing is trimmed or dropped |
| Projects.AddProject | backend/controllers/project.js:43-60 | the new project is stored under the next id with every earlier project kept, and only its own workspace's project list grows, by that id |
| Projects.CreateProject | backend/controllers/project.js:9-69 | a missing workspace gives 404 and a non-member 403, with no change; fields the schema rejects give 500 with no change; 201 exactly when the caller is a member and the schema accepts the fields; the stored project is the schema's document for the request (trimmed title and description, given or default status), copies the workspace's members verbatim, and its id is appended to that workspace's list only |
| Projects.ReadGate | backend/controllers/project.js:83-95 | a missing project gives 404 and a caller outside the project's members 403; the gate lets through exactly the members |
| Projects.GetProjectDetails | backend/controllers/project.js:74-104 | 200 with the project exactly when it exists and the caller is one of its members |
| Projects.GetProjectTasks | backend/controllers/project.js:109-149 | after the same gate, exactly the project's non-archived tasks with their multiplicities, newest first |
| Projects.CreatedProjectReaders | backend/controllers/project.js:43-53 | the readers of a new project are exactly its workspace's members at creation time, the creator among them |
| Migration.RepairAll | backend/fixprojectmembers.js:15-24 | the intended end state: each project of an existing workspace gets that workspace's members, every other project stays as it was |
| Migration.StateAt | backend/fixprojectmembers.js:15-24 | part-way through the run, exactly the projects visited before the cursor carry their workspace's members |
| Migration.VisitProject | backend/fixprojectmembers.js:20-23 | one inner iteration saves a project of the current workspace with that workspace's members; the save fails when it is the failing operation or the document fails validation, and a project of another workspace is passed over |
| Migration.RepairWorkspace | backend/fixprojectmembers.js:16-24 | the project query, which can fail first, then the inner loop: the state moves from the start of a workspace to the start of the next, or stops at the first failing operation, with every project saved before it valid |
| Migration.Migrate | backend/fixprojectmembers.js:8-33 | the run succeeds exactly when no database operation up to the last fails and every project of an existing workspace passes validation; then it makes one save per such project and reaches the intended end state; otherwise it stops at the first operation that throws (connecting, a project query, or a save of a failing or invalid document), with exactly the projects saved before it changed and the rest untouched; only members ever change and projects of missing workspaces never do |
| Migration.StaleStatusFailsRun | backend/fixprojectmembers.js:22 | a project the aggregator left at "Not Started" makes every later run of the repair fail |
| Migration.SavedBeforeBound | backend/fixprojectmembers.js:20-22 | the saves before any point of the run are at most those of a full run, and fewer when a save of that workspace is still to come |
| Migration.RepairAllSynchronises | backend/fixprojectmembers.js:15-24 | after a full run every project's members equal its workspace's members |
| Migration.RepairAllIdempotent | backend/fixprojectmembers.js:20-22 | running the repair twice gives the same state as running it once |

## Left out

- Database I/O, Mongoose `populate` joins, cookie options, `process.env`, dotenv, connection setup, `process.exit` and logging: outside the logic being modelled.
- Cryptography: bcrypt salting and cost, JWT signatures and secrets. Which tokens carry a valid signature is the domain of the `Verifier` map, and a bcrypt digest is symbolic. The `exp` claim and its 12-hour, 15-minute and 7-day lifetimes are modelled; `nbf`, clock tolerance and the other options of `jsonwebtoken` are not.
- Accounts.Utf8: strings are sequences of Unicode scalar values, so a lone UTF-16 surrogate, which JavaScript strings allow, is not representable. bcrypt's treatment of a NUL byte inside a password is not modelled.
- The abuse-protection rules behind `aj.protect` (backend/libs/arcjet.js): a boolean input.
- Email delivery: a boolean input.
- Concurrency: two requests racing on the same ledger entry. Handlers are modelled one at a time.
- Real dates: `now` is a natural number of milliseconds. `startDate` and `dueDate` are not modelled.
- The user, workspace, task and verification schemas are not part of this model. Users are records with the fields the handlers read. Workspace member roles are assumed to use the project role enumeration.
- Accounts.RegisterUser: a request without `email` or `name` is not modelled. Its outcome depends on the user schema's validators, and the user schema is not part of this model.
- Accounts.VerifyEmail: a payload without `userId` is not modelled. Every payload carries a user id.
- Projects.CreateProject: a storage failure in `workspace.save()` after the project is created is not modelled. Only schema validation failures give 500.
- Projects.GetProjectDetails: a member whose user document was deleted, so that `populate` yields `null`, is not modelled. Users are never deleted here.
- Schema.NewProject: progress is an integer. The schema's `Number` also admits fractions.
- Migration.Migrate: connecting and `Workspace.find` are merged into one operation, numbered 0. Of the project schema's validators only those on title, status and progress are modelled, and workspace member roles are assumed to lie in the project role enumeration, so they never fail validation.
- Tasks.SortNewestFirst: ties in `createdAt` are broken by insertion. The database leaves their order unspecified, so the contract fixes only the order and the multiset.
