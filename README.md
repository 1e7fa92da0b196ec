# Learning progress tracker — client state model

A Dafny model of the state logic of a single-page learning-goal tracker. Users sign in
through an identity provider, create goals with milestones and follow their progress.
The model covers the parts of the client that carry logic:

- **Goal store** (`GoalStore`, `goal_store.dfy`). This holds the goal collection, the
  goal open in the detail view (`currentGoal`), a loading flag and an error. Its reducer
  handles eight action kinds: `SET_GOALS`, `SET_CURRENT_GOAL`, `ADD_GOAL`, `UPDATE_GOAL`,
  `DELETE_GOAL`, `TOGGLE_MILESTONE`, `SET_LOADING` and `SET_ERROR`. The action set is a
  closed datatype, so the reducer's "unknown action" default branch cannot occur.
- **Session store** (`Session`, `session.dfy`). This is the reducer over `LOGIN_START`,
  `LOGIN_SUCCESS`, `LOGIN_FAILURE` and `LOGOUT`. `LOGOUT` deletes the `user` and `token`
  entries of the browser's local storage. That storage is a `map<string, string>` passed
  into the transition and returned from it.
- **Create-goal wizard** (`CreateGoalForm`, `create_goal.dfy`). This covers the form
  reducer, the validation of each of the four steps, and the page component. The
  component is a class: its fields are the component's state (`formData`, `currentStep`,
  `newMilestone`) and its methods are the event handlers that update them.
- **Dashboard** (`Dashboard`, `dashboard.dfy`). This covers the headline counts, the
  milestone totals accumulated in a loop, the goals-per-category dictionary filled in
  place, the completion rate and the three-goal preview.
- **Goal list filter** (`GoalFilter`, `goal_filter.dfy`). This is the status filter
  combined with a case-insensitive search of title and description.

Helper modules: `Wrappers` (`Option`), `Sequences` (order-preserving subsequence) and
`Text`. `Text` holds JavaScript's `trim`, an ASCII `toLowerCase` and `includes`.

The session is sometimes described as authenticated exactly when a user and a token are
present. The reducer guarantees only one direction of that. `LOGIN_FAILURE` clears
`isAuthenticated` but keeps the previous user and token. The model follows the code:
`Session.ReachableCredentialsPresent` proves the direction that holds, and
`Session.CredentialsWithoutSession` exhibits a reachable state where the converse fails.
In the same way, the toggle is sometimes described as flipping "the one milestone" with
the given id. The code flips every milestone whose `_id` is present, non-empty (it is
checked for truthiness) and equal to the id, and the model does the same.

## Model

| member | source | states |
|---|---|---|
| `GoalStore.Reduce` | src/context/Goalcontext.tsx:56-137 | the goal reducer over the eight action kinds: only `SET_ERROR` changes the error; `SET_LOADING` sets `loading` to its flag, a toggle keeps it and every other action clears it; each case is stated in full by the lemmas below |
| `GoalStore.ReplaceById` | src/context/Goalcontext.tsx:83-84 | the id-matched replacement used by `UPDATE_GOAL` and the toggle; its meaning is stated by `GoalStore.UpdateGoalReplacesById` and `GoalStore.ToggleMilestoneSyncsCollection` |
| `GoalStore.RemoveById` | src/context/Goalcontext.tsx:95 | the filter by id used by `DELETE_GOAL`; its meaning is stated by `GoalStore.RemoveByIdFilters` |
| `GoalStore.IsToggled` | src/context/Goalcontext.tsx:103 | the milestone test of the toggle (present, non-empty, equal `_id`); used by `GoalStore.ToggleMilestoneFlipsMatching` |
| `GoalStore.ToggleMilestones` | src/context/Goalcontext.tsx:102-106 | the milestone map of the toggle; stated by `GoalStore.ToggleMilestoneFlipsMatching` and `GoalStore.ToggleMilestonesInvolution` |
| `GoalStore.SetGoalsReplacesCollection` | src/context/Goalcontext.tsx:58-63 | `SET_GOALS` replaces the collection with the payload and clears `loading`; `currentGoal` and `error` are unchanged |
| `GoalStore.SetCurrentGoalReplacesCurrent` | src/context/Goalcontext.tsx:65-70 | `SET_CURRENT_GOAL` sets `currentGoal` and clears `loading`; goals and error are unchanged |
| `GoalStore.AddGoalAppends` | src/context/Goalcontext.tsx:72-77 | `ADD_GOAL` grows the collection by one: the old goals are an unchanged prefix and the payload is last |
| `GoalStore.UpdateGoalReplacesById` | src/context/Goalcontext.tsx:79-90 | `UPDATE_GOAL` keeps the length; each entry with the payload's id becomes the payload and the others are unchanged; `currentGoal` becomes the payload exactly when it is present with the same id, and otherwise (including null) is unchanged |
| `GoalStore.RemoveByIdFilters` | src/context/Goalcontext.tsx:95 | the filter by id is an order-preserving subsequence; a goal is kept iff it was present with a different id; the length drops by the number of goals carrying the id |
| `GoalStore.DeleteGoalRemovesId` | src/context/Goalcontext.tsx:92-97 | `DELETE_GOAL` leaves exactly the goals with a different id, in order; `currentGoal` and `error` are untouched and `loading` is cleared |
| `GoalStore.DeleteLeavesCurrentGoalDangling` | src/context/Goalcontext.tsx:92-97 | deleting the goal on view keeps `currentGoal` although that goal is no longer in the collection |
| `GoalStore.ToggleWithoutCurrentGoalIsNoop` | src/context/Goalcontext.tsx:100 | `TOGGLE_MILESTONE` with no current goal returns the state unchanged |
| `GoalStore.ToggleMilestoneFlipsMatching` | src/context/Goalcontext.tsx:102-111 | the toggle keeps the milestone count, ids, titles and completion dates, and flips `completed` exactly on milestones whose id is present, non-empty and equal to the payload; the rest of the current goal, `loading` and `error` are unchanged |
| `GoalStore.ToggleMilestoneSyncsCollection` | src/context/Goalcontext.tsx:113-119 | after a toggle the collection keeps its length, every position that held a goal with the current goal's id now holds the toggled current goal, positions with other ids are unchanged, and the store is consistent |
| `GoalStore.ToggleMilestonesInvolution` | src/context/Goalcontext.tsx:102-106 | flipping the same milestone id twice restores the milestone list |
| `GoalStore.ToggleTwiceRestores` | src/context/Goalcontext.tsx:99-119 | two identical toggles restore the current goal, and restore the whole state when the store was consistent |
| `GoalStore.SetLoadingChangesOnlyLoading` | src/context/Goalcontext.tsx:121-125 | `SET_LOADING` changes `loading` only |
| `GoalStore.SetErrorRecordsMessage` | src/context/Goalcontext.tsx:127-132 | `SET_ERROR` records the message and clears `loading`; goals and `currentGoal` are unchanged |
| `GoalStore.UpdateGoalKeepsConsistent` | src/context/Goalcontext.tsx:79-90 | an update keeps a consistent store consistent (each entry sharing the current goal's id equals it), and makes it consistent when it targets the current goal |
| `GoalStore.DeleteGoalKeepsConsistent` | src/context/Goalcontext.tsx:92-97 | deletion never breaks consistency |
| `GoalStore.FlagActionsKeepConsistent` | src/context/Goalcontext.tsx:121-132 | `SET_LOADING` and `SET_ERROR` keep consistency |
| `GoalStore.SetGoalsMayBreakConsistency` | src/context/Goalcontext.tsx:58-63 | replacing the collection can leave an entry with the current goal's id that differs from it |
| `Session.Reduce` | src/context/Authcontext.tsx:43-80 | the auth reducer, with storage threaded through: every action but `LOGOUT` leaves storage unchanged, and `LOGOUT` leaves exactly the keys other than `user` and `token`; each case is stated in full by the lemmas below |
| `Session.LoginStartSpec` | src/context/Authcontext.tsx:45-50 | `LOGIN_START` sets `loading` and clears `error`; user, token, authenticated flag and storage are unchanged |
| `Session.LoginSuccessSpec` | src/context/Authcontext.tsx:52-60 | `LOGIN_SUCCESS` yields the signed-in session with the given user and token, not loading, no error; storage is unchanged |
| `Session.LoginFailureSpec` | src/context/Authcontext.tsx:62-68 | `LOGIN_FAILURE` records the message and clears `loading` and `isAuthenticated`, but keeps the previous user and token |
| `Session.LogoutSpec` | src/context/Authcontext.tsx:70-75 | `LOGOUT` returns the initial session whatever the prior state; it deletes exactly the `user` and `token` storage keys and keeps every other entry's value |
| `Session.LogoutIdempotent` | src/context/Authcontext.tsx:34-40 | logging out twice is the same as logging out once, for state and storage |
| `Session.ReduceKeepsCredentialsPresent` | src/context/Authcontext.tsx:43-80 | every transition preserves "authenticated implies user and token present" |
| `Session.ReachableCredentialsPresent` | src/context/Authcontext.tsx:43-80 | any sequence of actions from a state satisfying the invariant ends in one that satisfies it |
| `Session.InitialCredentialsPresent` | src/context/Authcontext.tsx:34-40 | every state reachable from the initial session satisfies the invariant |
| `Session.CredentialsWithoutSession` | src/context/Authcontext.tsx:62-68 | a successful then a failed login leaves a user and a token but no authenticated session |
| `CreateGoalForm.FormReduce` | src/pages/CreateGoal.tsx:27-43 | the form reducer over its four action kinds; each case is stated by `CreateGoalForm.UpdateFieldChangesOnlyThatField`, `CreateGoalForm.AddMilestoneAppends`, `CreateGoalForm.RemoveMilestoneDeletesIndex` and `CreateGoalForm.ResetReturnsValue` |
| `CreateGoalForm.DropIndex` | src/pages/CreateGoal.tsx:36 | removing by index shortens the list by one for an index in range and keeps its length otherwise; the exact result is stated by `CreateGoalForm.DropIndexRemovesOne` |
| `CreateGoalForm.ValidateStep` | src/pages/CreateGoal.tsx:86-97 | the per-step check of the wizard; its meaning is stated by `CreateGoalForm.ValidateStepMeaning` |
| `CreateGoalForm.DropIndexRemovesOne` | src/pages/CreateGoal.tsx:36 | the filter by index deletes exactly the element at that index and keeps the order; an index out of range changes nothing |
| `CreateGoalForm.AddMilestoneAppends` | src/pages/CreateGoal.tsx:31-32 | `ADD_MILESTONE` appends the value and leaves title, category, description and target date unchanged |
| `CreateGoalForm.RemoveMilestoneDeletesIndex` | src/pages/CreateGoal.tsx:33-37 | `REMOVE_MILESTONE(i)` deletes the i-th milestone only, or nothing when i is out of range; the other fields are unchanged |
| `CreateGoalForm.UpdateFieldChangesOnlyThatField` | src/pages/CreateGoal.tsx:29-30 | `UPDATE_FIELD` changes the named field and nothing else |
| `CreateGoalForm.ResetReturnsValue` | src/pages/CreateGoal.tsx:38-39 | `RESET(v)` returns v |
| `CreateGoalForm.ValidateStepMeaning` | src/pages/CreateGoal.tsx:86-97 | step 1 passes iff the title has a non-whitespace character; step 2 iff the description does and a target date is set; step 3 iff there is a milestone; any other step passes |
| `CreateGoalForm.CreateGoalPage.constructor` | src/pages/CreateGoal.tsx:45-51 | the page starts on step 1 with the empty form and no pending milestone text |
| `CreateGoalForm.CreateGoalPage.Dispatch` | src/pages/CreateGoal.tsx:62 | the form becomes the reducer's result; step and pending text are unchanged |
| `CreateGoalForm.CreateGoalPage.SetNewMilestone` | src/pages/CreateGoal.tsx:233 | typing sets the pending milestone text only |
| `CreateGoalForm.CreateGoalPage.HandleNext` | src/pages/CreateGoal.tsx:76-80 | the step advances by one exactly when the current step validates; a click on the Next button, shown only before step 4, keeps the step within 1..4 |
| `CreateGoalForm.CreateGoalPage.HandlePrevious` | src/pages/CreateGoal.tsx:82-84 | the step goes back by one; a click on the Previous button, shown only after step 1, keeps the step within 1..4 |
| `CreateGoalForm.CreateGoalPage.HandleAddMilestone` | src/pages/CreateGoal.tsx:99-107 | non-blank pending text is appended untrimmed with `completed=false` and the text is cleared; blank text changes nothing |
| `CreateGoalForm.CreateGoalPage.HandleRemoveMilestone` | src/pages/CreateGoal.tsx:109-111 | the milestone at the index is deleted, order kept; nothing else changes |
| `Text.Trim` | src/pages/CreateGoal.tsx:89 | `trim()` yields the contiguous piece of the string that sits between a blank prefix and a blank suffix; it has no whitespace at either end and is empty exactly when the string is blank |
| `Text.TrimStart` | src/pages/CreateGoal.tsx:89 | the leading whitespace is removed: the result is a suffix, what is dropped is blank, and a non-empty result starts with a non-blank |
| `Text.TrimEnd` | src/pages/CreateGoal.tsx:89 | the trailing whitespace is removed: the result is a prefix, what is dropped is blank, and a non-empty result ends with a non-blank |
| `Text.Lower` | src/pages/Goals.tsx:44-45 | lower-casing keeps the length, turns each of 'A'..'Z' into the letter 32 code points further on ('a'..'z'), keeps every other character, and leaves no upper-case ASCII letter |
| `Text.LowerIdempotent` | src/pages/Goals.tsx:44-45 | lower-casing a lower-cased string changes nothing |
| `Text.LowerIgnoresCase` | src/pages/Goals.tsx:44-45 | two strings that agree up to ASCII case lower-case to the same string |
| `Text.Includes` | src/pages/Goals.tsx:44-45 | `includes` is true iff the term occurs at some position of the string |
| `Text.IncludesEmpty` | src/pages/Goals.tsx:44-45 | the empty term is contained in every string |
| `Dashboard.CountStatus` | src/pages/Dashboard.tsx:40-41 | the number of goals with a status is at most the number of goals; the sum with the other status is bounded by `Dashboard.StatusCountsBounded` |
| `Dashboard.CompletedCount` | src/pages/Dashboard.tsx:48 | the completed milestones of one goal are at most its milestones |
| `Dashboard.TotalMilestones` | src/pages/Dashboard.tsx:43-49 | the milestone total over all goals; `Dashboard.ComputeStats` proves the loop computes it and `Dashboard.CompletedMilestonesBounded` bounds the completed ones by it |
| `Dashboard.CompletedMilestones` | src/pages/Dashboard.tsx:43-49 | the completed-milestone total over all goals; stated by `Dashboard.ComputeStats` and `Dashboard.CompletedMilestonesBounded` |
| `Dashboard.CountCategory` | src/pages/Dashboard.tsx:55-58 | the number of goals in a category is at most the number of goals; it is the reference the dictionary loop is proved against |
| `Dashboard.StatusCountsBounded` | src/pages/Dashboard.tsx:39-41 | completed plus in-progress goals never exceed the total |
| `Dashboard.CompletedMilestonesBounded` | src/pages/Dashboard.tsx:43-49 | completed milestones never exceed all milestones |
| `Dashboard.ComputeStats` | src/pages/Dashboard.tsx:38-52 | `total` is the number of goals; `completed` and `inProgress` count those statuses; the loop's totals are the sums of milestone counts and completed-milestone counts over all goals; `completed + inProgress <= total`; the "Remaining" bar (src/pages/Dashboard.tsx:70) is non-negative |
| `Dashboard.CompletionRate` | src/pages/Dashboard.tsx:64-66 | 0 without milestones; otherwise within 0..100, 0 when none is completed and 100 when all are |
| `Dashboard.CountByCategory` | src/pages/Dashboard.tsx:55-58 | the dictionary's keys are distinct and are exactly the categories present; each count is that category's number of goals; the counts sum to the number of goals; the key order is the order in which the categories first appear, so keys are sorted by the position of their first goal |
| `Dashboard.FirstSeenMembers` | src/pages/Dashboard.tsx:55-58 | the categories in order of first appearance are exactly the categories some goal has |
| `Dashboard.FirstSeenOrdered` | src/pages/Dashboard.tsx:55-58 | the categories in order of first appearance are sorted by the position of each category's first goal |
| `Dashboard.ToEntries` | src/pages/Dashboard.tsx:59 | the entries list the dictionary in key order, one per key with that key's count, so their names are the keys and their values sum to the counts' total |
| `Dashboard.CategoryData` | src/pages/Dashboard.tsx:54-60 | each category appears at most once, exactly the categories present appear, each value is that category's goal count (at least 1), the values sum to the number of goals, and the entries come in the order of each category's first goal |
| `Dashboard.Preview` | src/pages/Dashboard.tsx:179 | the first three goals; stated by `Dashboard.PreviewIsPrefix` |
| `Dashboard.ShowsViewAll` | src/pages/Dashboard.tsx:204 | the "View All Goals" link condition; stated by `Dashboard.PreviewIsPrefix` |
| `Dashboard.PreviewIsPrefix` | src/pages/Dashboard.tsx:179-208 | the preview is the first min(3, n) goals in order, and "View All" appears iff n > 3, that is iff the preview hides a goal |
| `GoalFilter.MatchesFilter` | src/pages/Goals.tsx:43 | "all" or an equal status; stated by `GoalFilter.FilterByStatus` and `GoalFilter.NoFilterKeepsAll` |
| `GoalFilter.MatchesSearch` | src/pages/Goals.tsx:44-45 | the lower-cased title or description contains the lower-cased term; stated by `GoalFilter.FilterBySearch`, `GoalFilter.FilterIgnoresTermCase` and `GoalFilter.SearchIgnoresGoalCase` |
| `GoalFilter.Keep` | src/pages/Goals.tsx:42-46 | both tests pass; the filtered list is pinned by `GoalFilter.FilterGoals` |
| `GoalFilter.FilterGoals` | src/pages/Goals.tsx:42-47 | the filtered list is an order-preserving subsequence; a goal that passes the status filter and the search appears in it as many times as in the input, and a goal that fails appears not at all |
| `GoalFilter.FilterIgnoresTermCase` | src/pages/Goals.tsx:44-45 | searching for the lower-cased term lists the same goals as searching for the term |
| `GoalFilter.SearchIgnoresGoalCase` | src/pages/Goals.tsx:44-45 | two goals whose titles and descriptions agree up to ASCII case match the same searches |
| `GoalFilter.FilterByStatus` | src/pages/Goals.tsx:43 | with a status selected, every listed goal has that status |
| `GoalFilter.FilterBySearch` | src/pages/Goals.tsx:44-45 | every listed goal's lower-cased title or description contains the lower-cased term |
| `GoalFilter.NoFilterKeepsAll` | src/pages/Goals.tsx:43-45 | "all" with an empty search lists every goal, in order |
| `GoalFilter.FilterIdempotent` | src/pages/Goals.tsx:42-47 | filtering the filtered list with the same settings changes nothing |

## Left out

- HTTP calls of the API client (src/utils/api.ts) and the page effects that call it and then dispatch. This is network I/O; the model starts at the dispatched action.
- The "already fetched" module flags of the dashboard and goal list. They only prevent a duplicate initial fetch, which is asynchronous scheduling.
- Startup session restore (src/App.tsx:24-44). It reads local storage, parses the user with `JSON.parse` and dispatches `LOGIN_SUCCESS`; parsing is not modelled.
- The local storage writes on login (src/pages/Login.tsx:30-31) and on logout in the navigation bar. They happen outside the reducer.
- Google sign-in widget callbacks, routing, `ProtectedRoute`, chart rendering, date formatting and the `new Date()` minimum date of the date input.
- Timestamps (`createdAt`, `updatedAt`, `completedAt`) are opaque integers, `targetDate` is a string and `progress` is an optional real; none of them is computed with.
- `handleSubmit` of the wizard: an API call followed by `ADD_GOAL`, which the goal store models.
- Dashboard.CompletionRate: computes `Math.round(100 * c / t)` with exact rational arithmetic, so a floating-point rounding error at a .5 boundary is not modelled; only the bounds are stated.
- The per-goal progress percentages on the dashboard, goal list and detail pages. They are floating-point values.
- Text.Lower: lower-cases ASCII letters only, so Unicode case mapping is not modelled.
- `UPDATE_FIELD` with an arbitrary field name: the model has one variant per form field the inputs write (title, category, description, target date).
