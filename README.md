# Exam-taking client: session controller, timer, proctoring monitor and credential refresh

This project models the logic core of an exam-taking web client written in
TypeScript and React, and proves properties of that model in Dafny:

- the **exam session controller** (`useExamSession`), which holds the following and ties them together:
  - the remote attempt, the started flag and the current question index;
  - the answers and the answers the server has acknowledged;
  - the set of questions marked for review;
  - a one-slot debounce for autosave;
  - a snapshot in `localStorage` under `exam_state_<quizId>`, restored once per mount;
- the **inline predecessor** of that controller in the quiz page (`TakeQuizPage`), which has a confirmation dialog and a timer-driven auto-submit;
- the **countdown timer** (`useExamTimer`):
  - the remaining whole seconds from a deadline or a duration;
  - the one-second tick that signals expiry;
  - the `H:MM:SS` / `M:SS` display;
- the **violation monitor** (`useExamSecurity`): an append-only log of fullscreen exits and focus losses, and a counter of them;
- the **HTTP client's credential handling** (`client.ts`):
  - the bearer header;
  - the single-flight token refresh with its queue of waiting requests;
  - the error-message rule;
- the **route guards** (`auth-guards.ts`): signed in, and administrator;
- the **question palette** (`QuestionNavigation`): one button per question, coloured by a priority rule.

React state slots, refs and module variables are fields of Dafny classes, and
handlers are methods with `modifies` frames. `localStorage` is a map. The
awaited calls of the hooks, the quiz page and the HTTP client are each split
into two events: the event that issues it and the event that settles it. The
route guard's one refresh call is different: its answer is a parameter, and
the guard is decided in a single step. A call that is in flight is a list entry (the
answer writes) or an entry in a `MutationLog` (start and submit). A
react-query mutation is pending exactly while its most recent call has not
settled. Timers are explicit methods: `FireSaveTimer` for the debounce and
`Tick` for the interval. Browser signals are parameters: the fullscreen
element, `document.hidden`, the clock, and the answer of the refresh endpoint.

Modules, one per file:

| module | models |
|---|---|
| `Wrappers` | `Option` |
| `Text` | decimal rendering of integers, `padStart(2, '0')`, reading digits back |
| `SessionRules` | the pure rules both controllers share |
| `ExamSession` | `useExamSession` as the class `Session` |
| `TakeQuiz` | the inline controller of `TakeQuizPage` as the class `Page` |
| `ExamTimer` | `useExamTimer`: pure time arithmetic and formatting, and the class `Countdown` |
| `ExamSecurity` | `useExamSecurity` as the class `Monitor` |
| `Storage` | `localStorage` for the credential keys, as the class `LocalStorage` |
| `ApiClient` | `client.ts`: the header rule, the class `RefreshCoordinator`, `getErrorMessage` |
| `AuthGuards` | `auth-guards.ts` |
| `QuestionNavigation` | the button data of the question palette |

Where the design description and the code disagree, the model follows the code:

- The design promises exactly one submission, with a second `submit()` a no-op. The session hook's submit has no guard. Each call requests a submission (`ExamSession.SubmitTwice`). Only the page's auto-submit checks the pending flag.
- The design says a forced flush cancels the pending debounce and is awaited. Navigation's flush does neither. The timer that is still armed can send the same answer a second time (`ExamSession.NavigationLeavesTimerArmed`).
- The pre-submit flush does not record its acknowledgement in the acknowledged-answers map.
- When no refresh token is stored, the first 401 clears the credentials and redirects, but it never resets `isRefreshing`. Every later 401 then waits in a queue that nothing settles (`ApiClient.LoggedOutKeepsFlag`).
- A deadline timer that shows 0 on its first tick never calls its expiry callback (`ExamTimer.ExpiredAtMount`).
- The design says recovery with a submitted attempt resets the controller to "not started". The code only deletes the snapshot and leaves the state as it was. On mount that state is "not started".

## Model

| member | source | states |
|---|---|---|
| SessionRules.StorageKey | src/hooks/useExamSession.ts:11 | the key is `exam_state_` followed by the quiz id, with that prefix and exactly that suffix |
| SessionRules.StorageKeyInjective | src/hooks/useExamSession.ts:11 | two quizzes share a snapshot key if and only if their ids are equal |
| SessionRules.FlushTarget | src/hooks/useExamSession.ts:125-129 | a flush sends something if and only if the index is valid and that question's answer is non-empty and differs from the acknowledged one; it sends that question and that answer |
| SessionRules.FlushTargetIsSaved | src/hooks/useExamSession.ts:83-85 | once an attempt exists, anything a flush selects passes the save guard |
| SessionRules.PrevIndex | src/hooks/useExamSession.ts:135 | `max(0, i-1)`: never negative and at most one step back |
| SessionRules.NextIndex | src/hooks/useExamSession.ts:136 | `min(len-1, i+1)`: never past the last index and at most one step forward |
| SessionRules.StepsStayInRange | src/hooks/useExamSession.ts:135-136 | from a valid index, previous and next stay in `[0, len)`, moving by one except at the ends |
| SessionRules.NextWithoutQuestions | src/hooks/useExamSession.ts:136 | with no questions loaded, "next" leads to index -1 |
| SessionRules.ToggleMark | src/hooks/useExamSession.ts:112-122 | the membership of the toggled id flips and every other id keeps its membership |
| SessionRules.ToggleTwice | src/hooks/useExamSession.ts:112-122 | toggling the same id twice restores the marked set |
| SessionRules.AnswersOfKeys | src/hooks/useExamSession.ts:177-181 | the rebuilt answer map has an entry exactly for the recorded question ids |
| SessionRules.AnswersOfLastWins | src/hooks/useExamSession.ts:179 | each question's value is its last recorded answer |
| SessionRules.BuildAnswerMap | src/hooks/useExamSession.ts:177-181 | the `forEach` loop builds exactly the map of recorded answers, the later ones winning |
| SessionRules.MutationLog.Issue | src/hooks/useExamSession.ts:153 | `mutate()` adds one call, which is pending and can settle; the earlier calls are untouched |
| SessionRules.MutationLog.Settle | src/hooks/useExamSession.ts:58-81 | a settling call is marked settled, the others are unchanged, and the mutation stops pending exactly when the most recent call settles |
| SessionRules.AutosaveWrites | src/hooks/useExamSession.ts:83-88 | at most one write, issued if and only if there is an attempt and the value is not the acknowledged one; it carries that attempt, question and value |
| ExamSession.Session.Persisted | src/hooks/useExamSession.ts:194-202 | the persist effect writes `{attemptId, index, marked}` under the quiz's key exactly while started with an attempt and a quiz id, and touches no other key |
| ExamSession.Session.ShownError | src/hooks/useExamSession.ts:217 | the session's own error wins; otherwise an error shows exactly when the quiz failed to load |
| ExamSession.Session.constructor | src/hooks/useExamSession.ts:23-34 | a mounted session has no attempt, index 0, no answers, no marks, nothing saved, pending or issued |
| ExamSession.Session.StartExam | src/hooks/useExamSession.ts:39-40 | the start call is issued |
| ExamSession.Session.OnStartSuccess | src/hooks/useExamSession.ts:41-52 | the session is started on the new attempt and the snapshot under its key names that attempt; other keys are unchanged and the session invariant holds |
| ExamSession.Session.OnStartError | src/hooks/useExamSession.ts:53-55 | only the error is set |
| ExamSession.Session.PersistEffect | src/hooks/useExamSession.ts:194-202 | the stored snapshots become `Persisted` of the old ones, which re-establishes that the snapshot mirrors the running session |
| ExamSession.Session.SaveAnswerToServer | src/hooks/useExamSession.ts:83-88 | the writes issued are exactly `AutosaveWrites` for the attempt, question and value |
| ExamSession.Session.SelectAnswer | src/hooks/useExamSession.ts:96-110 | `answers[q] := a` with every other entry unchanged; the single pending save is replaced by one for this edit, capturing the current attempt |
| ExamSession.Session.FireSaveTimer | src/hooks/useExamSession.ts:107-109 | the slot empties and the save runs for the latest edit, against the acknowledgements as they are when it fires |
| ExamSession.Session.OnAnswerWriteSettled | src/hooks/useExamSession.ts:87-93 | a successful autosave records the value as acknowledged and a failed one leaves the map unchanged; a pre-submit write, either way, is followed by exactly one submission request |
| ExamSession.Session.RequestSubmission | src/hooks/useExamSession.ts:153 | one submission of the current attempt is requested and the submit mutation is pending |
| ExamSession.Session.ToggleMark | src/hooks/useExamSession.ts:112-122 | the marked set is toggled at that id, and the persist effect follows |
| ExamSession.Session.Navigate | src/hooks/useExamSession.ts:124-133 | the outgoing question's answer is sent only when `FlushTarget` selects it and the save guard passes; the index becomes the target; the snapshot is rewritten only when the index changed |
| ExamSession.Session.Previous | src/hooks/useExamSession.ts:135 | navigates to `PrevIndex`, staying in range, with the same flush; the snapshot is rewritten exactly when the index changes |
| ExamSession.Session.Next | src/hooks/useExamSession.ts:136 | navigates to `NextIndex`, staying in range, with the same flush; the snapshot is rewritten exactly when the index changes |
| ExamSession.Session.SubmitAttempt | src/hooks/useExamSession.ts:138-154 | with no attempt nothing happens; an unsaved current answer is written first and the submission follows that write; otherwise the submission is requested at once |
| ExamSession.Session.OnSubmitSuccess | src/hooks/useExamSession.ts:60-67 | the snapshot under the quiz's key is removed when there is a quiz id, and nothing else is |
| ExamSession.Session.OnSubmitError | src/hooks/useExamSession.ts:77-80 | the submit error is set |
| ExamSession.Session.RestoreOnMount | src/hooks/useExamSession.ts:156-165 | runs at most once per mount and only with a quiz id; no snapshot or an empty one changes nothing; an unreadable one is deleted; a readable one starts the fetch of its attempt |
| ExamSession.Session.OnRestoreFetched | src/hooks/useExamSession.ts:166-189 | a failed fetch or a submitted or expired attempt deletes the snapshot and leaves the session as it was; otherwise the session resumes on that attempt, with the saved index and marks and the recorded answers |
| ExamSession.DebounceKeepsLatest | src/hooks/useExamSession.ts:96-110 | two quick edits produce one write, of the later value |
| ExamSession.NavigationLeavesTimerArmed | src/hooks/useExamSession.ts:124-133 | navigating inside the debounce window sends the answer, and the timer that still fires sends it again |
| ExamSession.SubmitTwice | src/hooks/useExamSession.ts:138-154 | two submit calls request two submissions |
| ExamSession.RestoreSubmittedAttempt | src/hooks/useExamSession.ts:168-171 | a snapshot naming a submitted attempt is deleted and the session stays not started |
| ExamSession.ReloadResumes | src/hooks/useExamSession.ts:173-185 | after a reload the saved index and marks and the server's answers are back, and the snapshot is rewritten |
| TakeQuiz.Page.ShownError | src/pages/attempt/TakeQuizPage.tsx:180-181 | the error page shows exactly when loading failed or an error is set, and the set error wins |
| TakeQuiz.Page.constructor | src/pages/attempt/TakeQuizPage.tsx:34-43 | a mounted page has no attempt, index 0, nothing answered, marked, saved or issued, and the dialog closed |
| TakeQuiz.Page.StartExam | src/pages/attempt/TakeQuizPage.tsx:47-48 | the start call is issued |
| TakeQuiz.Page.OnStartSuccess | src/pages/attempt/TakeQuizPage.tsx:49-52 | the page is started on the new attempt, and the auto-submit callback is rebuilt on the current view |
| TakeQuiz.Page.OnStartError | src/pages/attempt/TakeQuizPage.tsx:53-55 | only the error is set |
| TakeQuiz.Page.SaveAnswerToServer | src/pages/attempt/TakeQuizPage.tsx:94-104 | the writes issued are exactly `AutosaveWrites` for the attempt, question and value |
| TakeQuiz.Page.SelectAnswer | src/pages/attempt/TakeQuizPage.tsx:106-120 | only `answers[q]` changes; the single pending save holds the latest edit |
| TakeQuiz.Page.FireSaveTimer | src/pages/attempt/TakeQuizPage.tsx:117-119 | the slot empties and the save runs for the latest edit |
| TakeQuiz.Page.OnAnswerWriteSettled | src/pages/attempt/TakeQuizPage.tsx:98-103 | a successful autosave is recorded and a failed one is dropped silently; a pre-submit write is followed by the submission whatever its outcome |
| TakeQuiz.Page.RequestSubmission | src/pages/attempt/TakeQuizPage.tsx:169 | one submission is requested, and the auto-submit callback is rebuilt exactly when the pending flag turns on |
| TakeQuiz.Page.ToggleMark | src/pages/attempt/TakeQuizPage.tsx:122-132 | the marked set is toggled at that id |
| TakeQuiz.Page.Navigate | src/pages/attempt/TakeQuizPage.tsx:135-144 | the outgoing unsaved answer is sent, then the index moves |
| TakeQuiz.Page.Previous | src/pages/attempt/TakeQuizPage.tsx:146-148 | navigates to `PrevIndex`, staying in range, after the page's flush: the question being left is written once if its answer is unsaved, and nothing is written otherwise |
| TakeQuiz.Page.Next | src/pages/attempt/TakeQuizPage.tsx:150-152 | navigates to `NextIndex`, staying in range, after the same flush |
| TakeQuiz.Page.SetSubmitModal | src/pages/attempt/TakeQuizPage.tsx:205 | the confirmation dialog opens or closes |
| TakeQuiz.Page.SubmitWith | src/pages/attempt/TakeQuizPage.tsx:155-170 | the submit routine over a given view of index and answers: nothing without an attempt, otherwise flush first and then submit |
| TakeQuiz.Page.ConfirmSubmit | src/pages/attempt/TakeQuizPage.tsx:247 | the dialog's confirm runs the submit routine on the current index and answers: an unsaved answer is written first, otherwise the attempt is submitted; the auto-submit callback is rebuilt on the live view exactly when the pending flag turns on |
| TakeQuiz.Page.TriggerAutoSubmit | src/pages/attempt/TakeQuizPage.tsx:82-86 | as written: nothing without an attempt or while a submission is pending; otherwise the flush looks at the view captured when the callback was last rebuilt, and a submission rebuilds the callback on the live view |
| TakeQuiz.Page.TriggerAutoSubmitLive | src/pages/attempt/TakeQuizPage.tsx:82-86 | corrected: same guard, and the current question's unsaved answer is written before any submission; a submission rebuilds the callback on the live view |
| TakeQuiz.Page.OnSubmitSuccess | src/pages/attempt/TakeQuizPage.tsx:63-71 | the submission settles, and the auto-submit callback is rebuilt exactly when the pending flag turns off |
| TakeQuiz.Page.OnSubmitError | src/pages/attempt/TakeQuizPage.tsx:72-76 | the error is set and the dialog closes |
| TakeQuiz.AutoSubmitSkipsUnsavedAnswer | src/pages/attempt/TakeQuizPage.tsx:82-86 | an answer chosen after the start and not yet saved is not written by the auto-submit as written, which submits at once |
| TakeQuiz.LiveAutoSubmitWritesAnswer | src/pages/attempt/TakeQuizPage.tsx:155-170 | with the live view the answer is written first, and the submission follows even a failed write |
| TakeQuiz.AutoSubmitWaitsForPending | src/pages/attempt/TakeQuizPage.tsx:83 | while a submission is pending the auto-submit does nothing |
| ExamTimer.CalculateTimeLeft | src/hooks/useExamTimer.ts:17-27 | with a deadline, `max(0, floor((end-now)/1000))`, never negative; with only a duration, the duration; with neither, 0 |
| ExamTimer.InitialTotal | src/hooks/useExamTimer.ts:30 | the total is the duration unless that is absent or 0, and then the first computed time |
| ExamTimer.JsRem | src/hooks/useExamTimer.ts:75-76 | JavaScript's `%`: `a == b*trunc(a/b) + r` with the quotient truncated toward zero, `|r| < b`, and `r` has the sign of the dividend |
| ExamTimer.ClockFields | src/hooks/useExamTimer.ts:74-76 | for a non-negative time, minutes and seconds are below 60 and `h*3600+m*60+s` is the time |
| ExamTimer.FormatTimeLayout | src/hooks/useExamTimer.ts:73-82 | the text has three fields exactly from one hour up and two below; the last field (and the minutes field of `h:mm:ss`) is always two characters wide, and the first field is the unpadded hours or minutes |
| ExamTimer.FormatTimeRoundTrip | src/hooks/useExamTimer.ts:73-82 | formatting loses nothing: a non-negative time's `h:mm:ss` or `m:ss` text reads back as that time |
| ExamTimer.RenderReadBack | src/hooks/useExamTimer.ts:78-81 | the template with minutes and seconds below 60 reads back as the time it denotes |
| ExamTimer.ParseTwoFields | src/hooks/useExamTimer.ts:81 | two digit fields joined by ':' split back into those two fields |
| ExamTimer.ParseThreeFields | src/hooks/useExamTimer.ts:79 | three digit fields joined by ':' split back into those three fields |
| ExamTimer.FormatExamples | src/hooks/useExamTimer.ts:73-82 | 125 seconds shows as "2:05" and 3605 seconds as "1:00:05" |
| ExamTimer.Countdown.constructor | src/hooks/useExamTimer.ts:29-32 | the first value is `CalculateTimeLeft`, the total is captured once from it, and the interval runs |
| ExamTimer.Countdown.SetOnTimeUp | src/hooks/useExamTimer.ts:34-36 | a new callback only replaces the slot; the interval and the time are untouched |
| ExamTimer.Countdown.SetProps | src/hooks/useExamTimer.ts:39-41 | a changed deadline or duration re-synchronises the time and restarts the interval; the captured total never changes |
| ExamTimer.Countdown.Expire | src/hooks/useExamTimer.ts:50 | the callback held in the slot at that moment is called once |
| ExamTimer.Countdown.Tick | src/hooks/useExamTimer.ts:43-67 | deadline: at zero the interval stops and the callback fires only if time was left before; duration: down by exactly one, firing exactly on reaching 0, and stopping at or below 0 without firing; the callback fires at most once per interval; whenever a tick fires the callback or stops the interval, `isTimeUp` holds afterwards |
| ExamTimer.Countdown.Teardown | src/hooks/useExamTimer.ts:69 | unmounting clears the interval |
| ExamTimer.Countdown.FormattedTime | src/hooks/useExamTimer.ts:88 | the text shown for a non-negative time left reads back as that time |
| ExamTimer.ExpiredAtMount | src/hooks/useExamTimer.ts:46-53 | a deadline timer already at 0 stops on its first tick without calling the callback |
| ExamTimer.DurationCountsDown | src/hooks/useExamTimer.ts:54-65 | a two-second timer fires exactly once, on its second tick, and stops on its third |
| Text.NatToString | src/hooks/useExamTimer.ts:79 | the decimal rendering: digits only, one digit exactly below 10, no leading zero |
| Text.ParseIntToString | src/hooks/useExamTimer.ts:79-81 | any integer's rendering reads back: a non-negative one is all digits and parses to the number, a negative one is '-' followed by digits that parse to its magnitude |
| Text.PadStart2 | src/hooks/useExamTimer.ts:79-81 | `padStart(2, '0')`: short strings get leading zeros up to length 2, and longer ones are unchanged |
| Text.ParseNatToString | src/hooks/useExamTimer.ts:79 | reading the decimal rendering back gives the number |
| Text.ParseNatLeadingZero | src/hooks/useExamTimer.ts:79-81 | a leading zero does not change the value read |
| Text.PaddedWidth | src/hooks/useExamTimer.ts:79-81 | a number below 100, padded, is exactly two characters wide |
| Text.ParsePadded | src/hooks/useExamTimer.ts:79-81 | a padded number below 100 reads back as itself |
| ExamSecurity.Monitor.constructor | src/hooks/useExamSecurity.ts:15-17 | the monitor starts fullscreen, with an empty log and a count of 0 |
| ExamSecurity.Monitor.AddViolation | src/hooks/useExamSecurity.ts:21-41 | inactive: nothing changes; active: exactly one entry is appended at the end and the count rises by one, so the count equals the log's length |
| ExamSecurity.Monitor.HandleFullscreenChange | src/hooks/useExamSecurity.ts:46-53 | the fullscreen flag follows the document, and a violation is logged only when nothing is fullscreen |
| ExamSecurity.Monitor.SetExamActive | src/hooks/useExamSecurity.ts:43-63 | activation attaches the listeners and runs the fullscreen handler once at once |
| ExamSecurity.Monitor.OnFullscreenChange | src/hooks/useExamSecurity.ts:55 | while listening the handler runs; otherwise the event changes nothing |
| ExamSecurity.Monitor.OnVisibilityChange | src/hooks/useExamSecurity.ts:68-72 | a focus violation is appended only when listening and the tab is hidden |
| ExamSecurity.Monitor.OnBlur | src/hooks/useExamSecurity.ts:74-76 | every blur while listening appends a focus violation |
| ExamSecurity.Monitor.EnterFullscreen | src/hooks/useExamSecurity.ts:87-96 | fullscreen is requested if and only if no element is fullscreen yet |
| ExamSecurity.FiveExits | src/hooks/useExamSecurity.ts:30-40 | five fullscreen exits during an active exam leave a count of five |
| Storage.LocalStorage.SetItem | src/api/client.ts:86-87 | one key is set, and the others are unchanged |
| Storage.LocalStorage.RemoveItem | src/api/client.ts:71-73 | one key is removed, and the others are unchanged |
| Storage.LocalStorage.ClearCredentials | src/api/client.ts:117-119 | exactly `accessToken`, `refreshToken` and `user` are removed |
| ApiClient.AttachToken | src/api/client.ts:14-21 | `Authorization: Bearer <token>` is set if and only if a non-empty token is stored; no other header changes |
| ApiClient.SettleAllExactlyOnce | src/api/client.ts:33-43 | `processQueue` settles each queued request exactly once, in queue order, all resolved with the token or all rejected with the error |
| ApiClient.WithToken | src/api/client.ts:106-108 | the replayed request carries the new bearer token, and its other headers are unchanged |
| ApiClient.RefreshCoordinator.constructor | src/api/client.ts:27-31 | no refresh flagged, an empty queue, no refresh call |
| ApiClient.RefreshCoordinator.ProcessQueue | src/api/client.ts:33-43 | the loop appends exactly one settlement per queued request and empties the queue, so every request ever queued has been settled |
| ApiClient.RefreshCoordinator.OnResponse | src/api/client.ts:46-76 | anything but a first 401 is rejected unchanged; a 401 during a refresh only waits in the queue; the first 401 makes exactly one refresh call, or, with no refresh token, clears the credentials and redirects, leaving the flag set; at most one refresh is in flight |
| ApiClient.RefreshCoordinator.RefreshSucceeded | src/api/client.ts:53-112 | both tokens are stored, the queue is resolved with the new access token in order, the flag is cleared and the original request is replayed with the new header and the `_retry` mark; each resolved queue entry then replays its own request, in queue order, with the new header and without the mark |
| ApiClient.RefreshCoordinator.RefreshFailed | src/api/client.ts:113-122 | the queue is rejected with the refresh error, the flag is cleared, the three keys are removed and the client redirects |
| ApiClient.TwoConcurrentFailures | src/api/client.ts:46-112 | two 401s together cause one refresh call; the waiting one is resolved with the new token and replayed with it, and the first is replayed with it |
| ApiClient.QueuedReplayCanRefreshAgain | src/api/client.ts:51-66 | a replayed queued request that is refused with 401 again starts a second refresh, while the original request's replay is rejected unchanged |
| ApiClient.LoggedOutKeepsFlag | src/api/client.ts:65-76 | with no refresh token the flag stays set, so a later 401 waits in a queue that no refresh call will settle |
| ApiClient.GetErrorMessage | src/api/client.ts:129-141 | an API error gives its message or "An error occurred"; another error gives its message; anything else gives "An unexpected error occurred"; a body whose `error` field is `null` passes `isApiError` and makes the call throw a `TypeError`, and this is the only case that throws |
| AuthGuards.RefreshDecision | src/lib/auth-guards.ts:5-51 | an access token settles it with no call and no change; no token at all fails with no change; the endpoint is called if and only if only a refresh token is stored; success stores both tokens and signs in; failure removes the three keys |
| AuthGuards.AttemptTokenRefresh | src/lib/auth-guards.ts:5-51 | the step-by-step guard returns, calls and leaves the store exactly as `RefreshDecision` says |
| AuthGuards.SecondGuardNeedsNoRefresh | src/lib/auth-guards.ts:9-11 | after a guard has signed in with a non-empty token, the next guard needs no refresh call |
| AuthGuards.IsAuthenticated | src/lib/auth-guards.ts:53-55 | returns exactly what `attemptTokenRefresh` returns |
| AuthGuards.IsAdmin | src/lib/auth-guards.ts:57-74 | true if and only if signed in, a user record is stored, it parses, and its role is "admin" |
| AuthGuards.DeniedRefreshIsNeverAdmin | src/lib/auth-guards.ts:45-48 | a refused refresh removes the user record, so no administrator remains |
| QuestionNavigation.ButtonAt | src/components/attempt/QuestionNavigation.tsx:23-59 | each of the four colours is chosen exactly under its priority condition, `contained` exactly for the current index, and the dot exactly for marked, non-current questions; number `idx+1` and target `idx` |
| QuestionNavigation.Buttons | src/components/attempt/QuestionNavigation.tsx:21-22 | `max(0, totalQuestions)` buttons, button `idx` numbered `idx+1` and navigating to `idx` |
| QuestionNavigation.ExactlyOneCurrent | src/components/attempt/QuestionNavigation.tsx:31-40 | with the current index in range, exactly one button is primary and contained, and it is the current one |
| QuestionNavigation.AnsweredMeansHasKey | src/components/attempt/QuestionNavigation.tsx:24 | only which questions have an answer entry matters, not the answer |
| QuestionNavigation.MissingIdIsPlain | src/components/attempt/QuestionNavigation.tsx:23-40 | buttons past the end of the id list are never marked or answered |

## Left out

- Rendering and layout: every component and dialog beyond the state it shows; snackbars and console logging.
- Navigation effects: the `/result` redirect after a submission and its one-second delay; `window.location.href = '/login'` is only counted.
- The exit from fullscreen after a successful submission, and the `enterFullscreen` call inside the start handler of the session hook. That call is modelled on its own in `ExamSecurity.Monitor.EnterFullscreen` and is not composed into `ExamSession.Session.OnStartSuccess`. The proctoring monitor is likewise a separate class that the session does not drive.
- The quiz fetch: the question ids are a constant of each controller, and a failed load is the parameter `quizLoadFailed`. Loading spinners are not modelled.
- JSON: a snapshot is stored as a typed `SavedState` (readable, unreadable, or empty). A readable snapshot that lacks the `questionIndex` or the `marked` field is not modelled, so the `|| 0` and `if (marked)` fallbacks are not represented. The user record's `JSON.parse` is a function parameter.
- ISO dates: the deadline is an integer millisecond timestamp; parsing the attempt's `expires_at` string is not modelled, and neither is an invalid date.
- The floating-point progress percentage of the timer.
- `isSubmitting` of the session hook and the quiz page: it only feeds rendering (the submitting overlay, and the confirm dialog, whose buttons it disables). The model's handlers can therefore be called while it holds, as a caller that bypasses the dialog could.
- The composition of the timer with the quiz page's auto-submit: each is modelled on its own, and the page's auto-submit is the event `TriggerAutoSubmit`.
- The Redux store update after a refresh (a dynamic import and a dispatch whose failure is ignored).
- The network transport: every call is an issue event and a settle event; which order those events come in is left to the caller, so real concurrency is not modelled.
- The remote attempt's answers are reloaded on restoration only; answers recorded on the server are not otherwise tracked.
- The webcam and its permission dialog.
- ExamSession.Session.OnRestoreFetched: requires a quiz id, because the restore effect that issues the fetch runs only with one.
- ExamTimer.Countdown.Tick: the interval's own timing is not modelled; each call is one firing at the given clock time.

## Findings

| source | as written | input that shows it | evidently intended | confidence | as-written member | corrected member |
|---|---|---|---|---|---|---|
| src/pages/attempt/TakeQuizPage.tsx:82-86 | `triggerAutoSubmit` is memoised on the attempt and the pending flag only, so it calls the `handleSubmitAttempt` of an older render (lines 155-170), which reads that render's question index and answers | start an attempt on a one-question quiz, choose an answer, and let the timer expire within the one-second debounce window | the auto-submit flushes the current question's unsaved answer before submitting, as the confirm button does | not executed | TakeQuiz.Page.TriggerAutoSubmit (counterexample TakeQuiz.AutoSubmitSkipsUnsavedAnswer) | TakeQuiz.Page.TriggerAutoSubmitLive (TakeQuiz.LiveAutoSubmitWritesAnswer) |
