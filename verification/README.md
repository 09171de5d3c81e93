# CareSync data service, modelled in Dafny

CareSync coordinates the care of elderly people: it keeps a list of users
(caregivers and administrators), a list of elderly profiles and a list of care
tasks, and remembers which user is signed in. All of it lives in the browser's
local storage, behind the `db` object of `services/dbService.ts`. The
mutating `db` operations read whole lists, filter or update them, write them
back and answer with a `{success, data?/error?}` envelope; `login` writes only
the session. `getCurrentUser` answers with a user or `null`, `logout` answers
with nothing, and `getUsers`, `getTasks` and `getElderlyProfiles` answer with
a bare list.

This project models that service as a state machine over an immutable `Store`
(three sequences and an optional session id). Each mutating operation is a
pure function from the store and its arguments to a `Step` (the response
envelope plus the next store). The two exceptions follow the code:
`GetCurrentUser` only reads, and returns an optional user; `Logout` returns
just the next store. Around it sit:

- the seed dataset of `constants.ts` and the first-run seeding in
  `initStorage`;
- the decision rules of the task card in `components/TaskCard.tsx`: claim or
  abandon, the status toggle and its button, the border colour, the assign
  button's visibility and label;
- the role-based navigation list of `components/Layout.tsx`.

Modules:

| file | module | contents |
|---|---|---|
| types.dfy | `Types` | users, elderly profiles, tasks, `Option`, the `Response` envelope |
| seqs.dfy | `Seqs` | `findIndex` / `find` / `filter` with independent first-match and membership specifications |
| text.dfy | `Text` | `toLowerCase`, `split('@')[0]`, the decimal rendering of a timestamp |
| constants.dfy | `Constants` | the seed users, profiles and tasks, and facts about them |
| db_service.dfy | `DbService` | storage slots, seeding, and every `db` operation |
| db_laws.dfy | `DbLaws` | laws across operations: cascades, round trips, seeding, login after signup |
| task_card.dfy | `TaskCard` | the task card's decisions |
| layout.dfy | `Layout` | the navigation list |

Inputs the code takes from its environment are parameters here:

- the browser storage is the `Storage` value for seeding and the `Store` value for the operations;
- `Date.now()` in signup is `now`, and the new id is `"u"` followed by its decimal digits;
- `new Date().toISOString()` in `updateTaskStatus` is `nowIso`;
- `encodeURIComponent(name)` in signup is `encodedName`;
- the seed's `addHours(startOfDay(new Date()), h).toISOString()` is `atHour(h)`.

Behaviour recorded as the code has it:

- The signup duplicate check compares emails exactly and case-sensitively.
  The login lookup lower-cases both sides. The local part before '@' is not
  lower-cased. `DbLaws.SignupShadowedByEarlierLogin` proves the result: a
  member who signs up with a case variant of a stored email can never be the
  user that logging in with that email finds.
- The seed task `t1` is COMPLETED without a completion time. "completedAt
  present iff COMPLETED" therefore holds after `updateTaskStatus`, not as a
  global invariant.
- Deleting a user only unassigns that user's tasks. Deleting a profile
  hard-deletes its tasks. Deleting the signed-in user leaves the session id in
  place, so no current user is found afterwards.
- JavaScript truthiness is kept where the code relies on it. An empty session
  id means nobody is signed in. An empty-string assignee counts as "no
  assignee" in the task card's guard and button.

Other behaviour a reader might not expect:

- Everything lives in the browser's local storage; no server is
  involved.
- Errors are the code's literal message strings, such as "Senha incorreta.".
- A corrupt stored list makes `JSON.parse` throw rather than read as empty,
  and write failures are not caught.

## Model

| member | source | states |
|---|---|---|
| Seqs.FindIndex | services/dbService.ts:21 | no index iff no element satisfies the predicate; a returned index is that of the first element that does |
| Seqs.Find | services/dbService.ts:59 | nothing iff no element satisfies the predicate; a returned element sits at the first position that does |
| Seqs.Filter | services/dbService.ts:124 | an element is kept iff it is in the list and satisfies the predicate, and the result is no longer than the list |
| Seqs.FilterShrinks | services/dbService.ts:172 | when some element fails the predicate, the filtered list is strictly shorter |
| Seqs.FilterAppend | services/dbService.ts:172 | filtering a concatenation is the concatenation of the filtered parts, which fixes the order of the kept elements |
| Text.Lower | services/dbService.ts:59 | lower-casing keeps the length and maps each character through the ASCII letter lower-casing |
| Text.LocalPart | services/dbService.ts:59 | `split('@')[0]` is the prefix of the email that contains no '@' and is followed by '@' or by the end of the string |
| Text.Decimal | services/dbService.ts:77 | the rendered timestamp is a non-empty string of decimal digits with no leading zero |
| Text.DecimalRoundTrip | services/dbService.ts:77 | the decimal digits of the signup timestamp read back as the timestamp |
| Text.DecimalInjective | services/dbService.ts:77 | distinct timestamps render as distinct digit strings |
| Constants.SeedUsersDistinct | constants.ts:4-41 | the four seed user ids are pairwise distinct, and so are their emails |
| Constants.SeedAdmin | constants.ts:4-13 | `admin_user` is the first seed user, has role ADMIN and email `admin` |
| Constants.SeedTasksDistinct | constants.ts:67-128 | there are five seed tasks and their ids are pairwise distinct |
| Constants.SeedTasksReferToSeed | constants.ts:43-128 | every seed task names a seed profile, is unassigned or assigned to a seed user, and was created by `u1` |
| Constants.SeedCompletedTask | constants.ts:67-128 | `t1` is the only COMPLETED seed task and has no completion time |
| DbService.Load | services/dbService.ts:39-43 | a present slot is read as stored and an absent one as the empty list; the session id is read as stored |
| DbService.Save | services/dbService.ts:39-49 | writing a store fills every slot, and reading the slots back gives the same store |
| DbService.MockAdmin | services/dbService.ts:22 | the seed lookup of `admin_user` finds the seed administrator |
| DbService.ResetAdminPassword | services/dbService.ts:19-27 | the result is the list with the first `admin_user`'s password replaced by the seed password, or the list unchanged when no user has the id `admin_user` |
| DbService.InitStorage | services/dbService.ts:13-36 | afterwards every slot is present; an absent slot gets its seed list; a present slot, even an empty one, is kept, except that the first stored `admin_user` gets the seed password back (a users list without one is kept as it is); the session is untouched |
| DbService.Login | services/dbService.ts:56-66 | no matching user gives "user not found" with the store unchanged; the first match with a different password gives "wrong password" with the store unchanged; otherwise that user is returned and becomes the session, and no list changes |
| DbService.Signup | services/dbService.ts:68-90 | an exactly equal stored email gives an error with nothing changed; otherwise a MEMBER with the given name, email and password, id `u<now>`, the avatar URL built from the encoded name and the colour `bg-indigo-100 text-indigo-800` is appended last and becomes the session |
| DbService.GetCurrentUser | services/dbService.ts:92-96 | an absent or empty session gives no user; otherwise the result is the first user with the session id, or none when no user has it |
| DbService.Logout | services/dbService.ts:98-100 | the session is cleared and no list changes |
| DbService.UpdateUserRole | services/dbService.ts:107-120 | an unknown id gives an error with the store unchanged; otherwise only the first user with the id has its role replaced, and the updated user is returned |
| DbService.Unassign | services/dbService.ts:127-131 | the task count is kept; tasks assigned to the user become unassigned and every other task is unchanged |
| DbService.DeleteUser | services/dbService.ts:122-134 | always succeeds; the users left are exactly those with a different id, in order; tasks are unassigned, never removed; profiles and session are untouched |
| DbService.AssignTask | services/dbService.ts:141-149 | an unknown task id gives an error with the store unchanged; otherwise only the first task with the id gets the new assignee, with no check that the user exists |
| DbService.WithStatus | services/dbService.ts:156-160 | the task takes the status; it has a completion time iff the status is COMPLETED, and that time is the current one; no other field changes |
| DbService.UpdateTaskStatus | services/dbService.ts:151-163 | an unknown task id gives an error with the store unchanged; otherwise only the first task with the id changes, under the completion rule |
| DbService.CreateTask | services/dbService.ts:165-169 | the task is appended last and returned, with no id check; nothing else changes |
| DbService.DeleteTask | services/dbService.ts:171-175 | always succeeds; the tasks left are exactly those with a different id, in order |
| DbService.CreateElderlyProfile | services/dbService.ts:182-186 | the profile is appended last and returned, with no id check; nothing else changes |
| DbService.DeleteElderlyProfile | services/dbService.ts:188-196 | always succeeds; the profiles left are those with a different id and the tasks left are those referring to a different profile, both in order; users and session are untouched |
| DbLaws.FirstRunLoadsSeed | services/dbService.ts:13-36 | with nothing stored, seeding then reading gives exactly the seed users, profiles and tasks |
| DbLaws.SeedStoreIsSound | constants.ts:4-128 | in the seed store every task names a stored profile, every assignee is a stored user, and user ids are unique |
| DbLaws.ResetAdminPasswordIdempotent | services/dbService.ts:19-27 | resetting the admin password twice is the same as once |
| DbLaws.InitStorageIdempotent | services/dbService.ts:13-36 | seeding a second time, as on a reload, changes nothing |
| DbLaws.SeedingKeepsEmptyLists | services/dbService.ts:13-36 | stored empty lists stay empty after seeding |
| DbLaws.ReloadAfterSave | services/dbService.ts:13-52 | writing a store and reloading gives it back, except that the first stored `admin_user` has the seed password again |
| DbLaws.AdminLogsInOnSeed | services/dbService.ts:56-65 | on the seed, `admin` with the seed password logs in as `admin_user` and sets the session to it |
| DbLaws.MemberLogsInByLocalPart | services/dbService.ts:59 | on the seed, `Ana` with password `123` logs in as `u1`: the input is lower-cased and matches the local part of `ana@example.com` |
| DbLaws.LoginIgnoresInputCase | services/dbService.ts:59 | logging in with the lower-cased input gives the same result as with the input as typed |
| DbLaws.WrongPasswordKeepsSession | services/dbService.ts:62 | a wrong password for the first matching user leaves the session as it was |
| DbLaws.LoginThenCurrentUser | services/dbService.ts:64 | after a login the current user has the logged-in id, and is that user when ids are unique; an empty id is never current |
| DbLaws.SignupThenCurrentUser | services/dbService.ts:76-96 | after a signup with a fresh id the current user is the new member |
| DbLaws.SignupIdsDistinct | services/dbService.ts:77 | signups at different instants create different ids |
| DbLaws.SignupShadowedByEarlierLogin | services/dbService.ts:59-72 | when a stored email matches the new email for login, the signup succeeds, but logging in with that email can only ever return the stored user |
| DbLaws.SeedSignupCaseVariant | services/dbService.ts:59-72 | on the seed, signing up as `Admin` succeeds, and logging in as `Admin` with the new password then fails with "wrong password" |
| DbLaws.LogoutClearsCurrentUser | services/dbService.ts:92-100 | after logout there is no current user |
| DbLaws.UpdateUserRolePreservesInvariants | services/dbService.ts:107-120 | changing a role keeps user ids unique, every assignee a stored user and every task's profile stored, when they were before |
| DbLaws.UpdateRoleOfCurrentUser | services/dbService.ts:92-120 | changing the signed-in user's role succeeds and `getCurrentUser` then returns the updated user with the new role |
| DbLaws.DeleteUserKeepsTasks | services/dbService.ts:127-131 | deleting a user keeps the task count and each task's id, profile and status, and leaves no task assigned to that user |
| DbLaws.DeleteUserPreservesReferences | services/dbService.ts:122-134 | if every assignee is a stored user and every task names a stored profile, both stay true after deleting a user |
| DbLaws.DeleteSessionUser | services/dbService.ts:122-134 | deleting the signed-in user keeps the session id but leaves no current user |
| DbLaws.DeleteProfilePreservesReferences | services/dbService.ts:188-196 | if every task names a stored profile and every assignee is a stored user, both stay true after deleting a profile |
| DbLaws.SeedDeleteProfile | services/dbService.ts:188-196 | on the seed, deleting `e1` leaves exactly the tasks of `e2` in order, only profile `e2`, and all users |
| DbLaws.CompleteThenReopen | services/dbService.ts:151-163 | COMPLETED then PENDING leaves the task PENDING with no completion time, and the store otherwise as it was |
| DbLaws.CreateThenDeleteTask | services/dbService.ts:165-175 | creating a task with a fresh id and deleting that id gives back the original store |
| DbLaws.CreateDuplicateThenDelete | services/dbService.ts:165-175 | creating a task with a taken id and deleting that id also removes the earlier task |
| DbLaws.CreateThenDeleteProfile | services/dbService.ts:182-196 | creating a profile with a fresh, unreferenced id and deleting it gives back the original store |
| DbLaws.AssignTaskPreservesAssignees | services/dbService.ts:141-149 | assigning to nobody or to a stored user keeps every assignee a stored user |
| TaskCard.NewAssignee | components/TaskCard.tsx:30-37 | the button abandons (null) exactly when the task is mine, and otherwise assigns it to me |
| TaskCard.ClaimThenAbandon | components/TaskCard.tsx:33-41 | claiming an unassigned task assigns it to me, and pressing again restores the store |
| TaskCard.ClaimTakesOver | components/TaskCard.tsx:37 | pressing on a task held by someone else assigns it to me |
| TaskCard.Flip | components/TaskCard.tsx:47 | the requested status always differs from the current one |
| TaskCard.FlipInvolutive | components/TaskCard.tsx:47 | flipping twice is the identity |
| TaskCard.PressAssign | components/TaskCard.tsx:33-41 | a card whose task is no longer stored gives "task not found" with the store unchanged; otherwise the first stored task with the card's id is abandoned (no assignee) if the card shows it as mine and assigned to me if not, and nothing else in the store changes |
| TaskCard.PressStatus | components/TaskCard.tsx:43-51 | a task held by someone else, or no longer stored, leaves the store unchanged; otherwise the first stored task with the id takes the flipped status, has a completion time iff it was PENDING and that time is the current one, keeps every other field, and no other task, user, profile or the session changes |
| TaskCard.ToggleTwice | components/TaskCard.tsx:43-51 | two presses restore the status; a task that started PENDING ends with no completion time; other tasks are untouched |
| TaskCard.StatusButtonEnabledIff | components/TaskCard.tsx:84 | the status button is enabled iff the task is mine, my id is not empty, and nothing is processing |
| TaskCard.UnassignedBlockedOnlyByButton | components/TaskCard.tsx:44-84 | an unassigned task passes the handler's guard and is stopped only by the disabled button; an enabled button always passes the guard |
| TaskCard.PriorityBorder | components/TaskCard.tsx:63-71 | completed tasks are gray; pending CRITICAL, HIGH and MEDIUM tasks are red, orange and blue, and nothing else is |
| TaskCard.CompletedCardHidesAssign | components/TaskCard.tsx:136 | a completed task shows no assign button and has the gray border |
| TaskCard.AssigneeOf | components/TaskCard.tsx:28 | an unassigned task or a dangling id finds no user; a found user is the first stored user whose id is the assignee id |
| TaskCard.AssignButtonLabel | components/TaskCard.tsx:150-161 | "..." exactly while processing; otherwise "Abandonar" iff the task is mine, and "Assumir" for a task of someone else iff no stored user holds it |
| Layout.NavItems | components/Layout.tsx:31-41 | today, tasks and profiles come first in that order; `/users` appears iff the current user is ADMIN; settings is last; the length is 5 for ADMIN and 4 otherwise; all paths are distinct |

## Left out

- JSON serialisation: a present slot holds an already-parsed list. A corrupt stored value, which makes `JSON.parse` throw, is not modelled. Neither is a stored empty string, which seeding treats as absent.
- Storage write failures (quota): `setItem` exceptions are not caught by the code and are not modelled.
- `async`/`await` and the 500 ms delays: they do not affect state.
- Concurrency across tabs and the resulting lost updates: each operation is one atomic step here.
- `getUsers`, `getTasks`, `getElderlyProfiles`: they return a store field as it is, so they have no separate function.
- Text.Lower: models `toLowerCase` on the ASCII letters A-Z only; other letters, which JavaScript also lower-cases, are left unchanged.
- `types.ts` is not part of this model. The entity fields come from their uses, and Gender has only the MALE and FEMALE values seen in the seed.
- The type icon, class strings and other JSX of the task card; `isProcessing` is a parameter, not React state.
- `pages/Dashboard.tsx`: its progress is a floating-point percentage and its day filter depends on the time zone.
- The login and signup forms, including the signup page's three-character password check, the application bootstrap and the configuration files.
