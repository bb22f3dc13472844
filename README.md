# noteably front end: a Dafny model of its logic core

This project models the logic of the noteably front end (a React and TypeScript
application) and proves properties of that model. It covers:

- the toast notification engine: the provider's list of toasts with `publish`,
  `dismiss` and `clear`, and the countdown of each rendered toast, which pauses
  while the pointer is over it;
- the mock authentication back end: validators, email normalisation, and
  `login`/`signup` over the stored users;
- the session state machine of `AuthProvider`;
- the class-name combiner `cn`;
- the tab logic: id sanitising, keyboard navigation, and the controlled or
  uncontrolled active value;
- the upload form's state machine;
- the tooltip's open and close timers;
- the dark-mode hook.

One module is given per source file:

| module | file | models |
|---|---|---|
| `Wrappers` | wrappers.dfy | `Option`, `Result` and `Outcome` (a check with an error message) |
| `Strings` | strings.dfy | the JavaScript string operations the source uses: `trim` (ECMAScript white space and line terminators), ASCII `toLowerCase`, and the UTF-16 `length` |
| `Timers` | timers.dfy | the due time of a `window.setTimeout` (the delay wraps to a 32-bit `long`, and a negative one counts as zero) |
| `Toast` | toast.dfy | src/components/ui/Toast.tsx |
| `MockAuth` | mockauth.dfy | src/lib/mockAuth.ts |
| `Auth` | auth.dfy | src/contexts/AuthContext.tsx |
| `ClassNames` | classnames.dfy | src/lib/utils.ts |
| `Tabs` | tabs.dfy | src/components/ui/Tabs.tsx |
| `Upload` | upload.dfy | src/routes/Upload.tsx |
| `Tooltip` | tooltip.dfy | src/components/ui/Tooltip.tsx |
| `DarkMode` | darkmode.dfy | src/hooks/useDarkMode.ts |

How the source's forms are modelled:

- List transformations and validators are functions.
- Each component whose refs or state cells change step by step is a class: the
  toast countdown (`Toast.ToastItem`), the auth provider, the tabs, the upload
  form, the tooltip and the dark-mode hook. Its handlers are methods.
- `window.setTimeout` is a table of pending timeouts that the class owns: a map
  from handle to due time. The clock is an integer passed to each method.
- Results the model does not compute are parameters. These are the mock
  back-end results seen by `AuthProvider`, the generated ids, `isValidUrl` and
  the `prefers-color-scheme` media query.

### Where the code differs from its documented behaviour

The model follows the code in each case below:

- `publish` with an id already in the list appends a second entry. It does not
  replace the first (`Toast.PublishKeepsDuplicates`). `dismiss` of that id
  then removes both.
- A toast paused at or after its due time ends with `remaining <= 0`, and
  `resumeTimer` never re-arms it. The toast then stays until it is dismissed
  explicitly, instead of expiring at once (the `Stuck` state of
  `Toast.ToastItem`, reached in `Toast.StuckExample`).
- A duration of 2^31 ms or more is not rejected, but `window.setTimeout`
  converts it to a 32-bit `long`, so from 2^31 up to 2^32 - 1 the toast expires
  at once (`Toast.LongDurationExample`). The countdown invariant of
  `Toast.ToastItem` (its `Consistent` predicate) is therefore stated for
  durations of at most 2^31 - 1 ms.
- An action whose `onClick` throws stops the click handler before `onDismiss`
  (`Toast.ToastItem.ActionClick` with `completed` false).
- `sanitizeValue` replaces UTF-16 code units, not characters. A character
  outside the Basic Multilingual Plane becomes two dashes, so the length kept
  is the UTF-16 length (`Tabs.Sanitize`).
- Two tab values that sanitise alike, such as `"a b"` and `"a-b"`, share their
  trigger and panel ids (`Tabs.SanitizeCollides`, `Tabs.IdsMatch`).
- None of the file, URL or drop handlers is disabled while an upload is
  processing. Removing the file in that window still marks the upload
  processed when the timeout completes, but the details are gone. The
  completion card needs both, so it never shows
  (`Upload.RemoveWhileProcessingExample`).

## Model

| member | source | states |
|---|---|---|
| Strings.Trim | src/lib/mockAuth.ts:12 | `trim` never lengthens a string, and what it returns is empty or starts and ends with a non-white-space character |
| Strings.TrimSpec | src/lib/mockAuth.ts:12 | `trim` removes exactly the maximal white-space prefix and suffix: the result is the infix between them and has no white space at either end |
| Strings.TrimIdempotent | src/lib/mockAuth.ts:12 | trimming twice is trimming once |
| Strings.TrimEmptyIff | src/lib/mockAuth.ts:78 | a string trims to empty exactly when it is all white space |
| Strings.Lower | src/lib/mockAuth.ts:12 | `toLowerCase` keeps the length and lower-cases each character in place |
| Strings.LowerIdempotent | src/lib/mockAuth.ts:12 | lower-casing twice is lower-casing once |
| Strings.TrimLowerCommute | src/lib/mockAuth.ts:12 | trimming and lower-casing commute |
| Strings.Utf16Length | src/lib/mockAuth.ts:72 | the JavaScript `length` lies between the number of characters and twice that |
| Timers.ToLong | src/components/ui/Toast.tsx:121-123 | the delay as a WebIDL `long`: congruent to it modulo 2^32, within the signed 32-bit range, and unchanged when already in it |
| Timers.Due | src/components/ui/Toast.tsx:121-123 | a timeout is due at most 2^31 - 1 ms after arming: exactly `delay` ms for a delay in that range, at once for a negative 32-bit delay, and otherwise at a time congruent to `delay` modulo 2^32 or at once |
| Timers.DueWraps | src/components/ui/Tooltip.tsx:49 | a delay of 2^31 ms is due at once, and one of 2^32 + 5 ms after 5 ms |
| Toast.ResolveId | src/components/ui/Toast.tsx:69 | the id is `options.id` when given, the generated id otherwise |
| Toast.Publish | src/components/ui/Toast.tsx:68-72 | publish returns the resolved id and appends exactly one entry carrying it; the earlier entries are unchanged and in order |
| Toast.PublishKeepsDuplicates | src/components/ui/Toast.tsx:70 | publishing an id already live yields one more entry with that id, not a replacement |
| Toast.Dismiss | src/components/ui/Toast.tsx:74-76 | `dismiss` never lengthens the list, and no entry with the dismissed id is left |
| Toast.DismissKeeps | src/components/ui/Toast.tsx:74-76 | an entry survives dismiss exactly when it was in the list with a different id |
| Toast.DismissAppend | src/components/ui/Toast.tsx:75 | dismiss distributes over concatenation, so the kept entries stay in their original order |
| Toast.DismissUnknown | src/components/ui/Toast.tsx:75 | dismissing an id no entry carries leaves the list unchanged |
| Toast.DismissIdempotent | src/components/ui/Toast.tsx:75 | dismissing twice equals dismissing once |
| Toast.PublishThenDismiss | src/components/ui/Toast.tsx:68-76 | dismissing the id publish returned undoes the publish, and also removes older entries with that id |
| Toast.Clear | src/components/ui/Toast.tsx:78 | clear yields the empty list |
| Toast.InsertionOrderExample | src/components/ui/Toast.tsx:68-78 | publish A, B, C, dismiss B, publish D gives A, C, D in that order |
| Toast.ResolveVariant | src/components/ui/Toast.tsx:108 | a missing variant is `'default'` |
| Toast.ResolveDuration | src/components/ui/Toast.tsx:108 | a missing duration is 5000 ms (`DEFAULT_DURATION`, line 63) |
| Toast.Role | src/components/ui/Toast.tsx:168 | the role is `alert` exactly for the error variant, `status` otherwise |
| Toast.AriaLive | src/components/ui/Toast.tsx:174 | `aria-live` is `assertive` exactly for the error variant, `polite` otherwise |
| Toast.RoleMatchesAriaLive | src/components/ui/Toast.tsx:168-174 | an alert is always announced assertively, and only an alert |
| Toast.ToastItem.Mount | src/components/ui/Toast.tsx:108-158 | a mounted toast with a positive duration has exactly one pending timeout, due as `setTimeout` computes it; for a duration up to 2^31 - 1 ms that is `duration` after mounting and the countdown invariant holds; with `duration <= 0` no timeout is ever armed |
| Toast.ToastItem.StartTimer | src/components/ui/Toast.tsx:119-124 | records the start time and arms a fresh timeout for `remaining` |
| Toast.ToastItem.PauseTimer | src/components/ui/Toast.tsx:126-134 | cancels the held timeout, empties the ref and subtracts the time since the start from `remaining` |
| Toast.ToastItem.ResumeTimer | src/components/ui/Toast.tsx:136-140 | re-arms for `remaining`, and only when time is left and the pointer is away |
| Toast.ToastItem.RunEffect | src/components/ui/Toast.tsx:116-158 | the effect does nothing when `duration <= 0`; otherwise it starts the timer and installs the listeners |
| Toast.ToastItem.PointerEnter | src/components/ui/Toast.tsx:147-150 | pauses: no timeout is left pending and the elapsed running time is banked; the countdown invariant is kept from an armed countdown, and a stuck toast stays stuck |
| Toast.ToastItem.PointerLeave | src/components/ui/Toast.tsx:152-155 | resumes for the remaining time only; the countdown invariant is kept |
| Toast.ToastItem.Fire | src/components/ui/Toast.tsx:121-123 | the running timeout asks for dismissal; under the invariant it is the held one, and the running intervals before it sum to exactly `duration` |
| Toast.ToastItem.Close | src/components/ui/Toast.tsx:201 | the close button asks for dismissal |
| Toast.ToastItem.ActionClick | src/components/ui/Toast.tsx:186-192 | the action runs first, then dismissal is asked for; a throwing action skips the dismissal |
| Toast.ToastItem.Unmount | src/components/ui/Toast.tsx:159-165 | the cleanup cancels the held timeout and removes the listeners, so no timeout of the toast remains |
| Toast.ToastItem.RerunEffect | src/components/ui/Toast.tsx:159-166 | as written: a re-run restarts the countdown from the stale `remaining`, so the running time reaches more than `duration` before it fires, and it arms a timeout while the pointer is over the toast |
| Toast.ToastItem.RerunEffectCorrected | src/components/ui/Toast.tsx:116-166 | a re-run that banks the elapsed time and re-arms only as `resumeTimer` would keeps the countdown invariant and the running time |
| Toast.ToastItem.CorrectedCleanup | src/components/ui/Toast.tsx:126-134 | the corrected cleanup credits the time run and cancels the pending timeout, keeping running time plus `remaining` equal to `duration` |
| Toast.HoverExample | src/components/ui/Toast.tsx:147-155 | a 1000 ms toast hovered 300 ms in is due 700 ms after the pointer leaves, with one timeout pending |
| Toast.StuckExample | src/components/ui/Toast.tsx:126-140 | a toast hovered at its due time, before the timeout ran, has nothing left to run and no timeout pending after the pointer leaves |
| Toast.LongDurationExample | src/components/ui/Toast.tsx:117-123 | a toast with a 2^31 ms duration has its one timeout due at the mounting time |
| Toast.RerunWhileHoveredExample | src/components/ui/Toast.tsx:96 | a re-render during a hover leaves two pending timeouts after the leave, the first one 100 ms early |
| Toast.RerunWhileHoveredCorrectedExample | src/components/ui/Toast.tsx:116-166 | with the corrected re-run, the same sequence leaves one timeout, due when 5000 ms have run |
| MockAuth.NormalizeEmail | src/lib/mockAuth.ts:12 | normalisation is trim then lower-case; the result has no white space at either end and no upper-case ASCII letter |
| MockAuth.NormalizeEmailIdempotent | src/lib/mockAuth.ts:12 | normalising twice is normalising once |
| MockAuth.EmailPatternChars | src/lib/mockAuth.ts:8 | an accepted string has an `@` with only non-space, non-`@` characters elsewhere |
| MockAuth.EmailPatternShape | src/lib/mockAuth.ts:8 | an accepted string contains exactly one `@` and no white space |
| MockAuth.EmailPatternExamples | src/lib/mockAuth.ts:8 | `a@b.co` is accepted and `a@b` is not |
| MockAuth.ValidateEmail | src/lib/mockAuth.ts:65-69 | passes exactly when the trimmed email matches the pattern; otherwise fails with the email message |
| MockAuth.ValidatePassword | src/lib/mockAuth.ts:71-75 | passes exactly when the UTF-16 length is at least 6; otherwise fails with the password message |
| MockAuth.ValidateName | src/lib/mockAuth.ts:77-81 | fails, with the name message, exactly when the name is all white space |
| MockAuth.ToUser | src/lib/mockAuth.ts:91 | keeps id, email, name and subscription and drops the password |
| MockAuth.FirstMatch | src/lib/mockAuth.ts:101-103 | the index of the first stored user with the email and password, or the length when there is none |
| MockAuth.FindUser | src/lib/mockAuth.ts:101-103 | `find` returns the first matching stored user, and none exactly when no user matches |
| MockAuth.Login | src/lib/mockAuth.ts:93-111 | email validation first, then password validation; a success is the first stored user matching the normalised email and the exact password, as `users.find` returns it |
| MockAuth.LoginRejectsUnknown | src/lib/mockAuth.ts:105-107 | valid input fails with "Invalid email or password." exactly when no stored user matches |
| MockAuth.Signup | src/lib/mockAuth.ts:113-145 | validation in the order email, password, name; success exactly when all pass and the normalised email is new; it appends one free-plan user with the normalised email and trimmed name |
| MockAuth.SignupRejectsTaken | src/lib/mockAuth.ts:128-130 | an email already stored fails with "An account with this email already exists." |
| MockAuth.ValidationPrecedesStore | src/lib/mockAuth.ts:94-120 | a validation failure does not depend on the stored users and writes nothing |
| MockAuth.SignupPreservesDistinct | src/lib/mockAuth.ts:128-141 | signup keeps the stored emails pairwise distinct |
| MockAuth.SignupThenLogin | src/lib/mockAuth.ts:99-143 | after a successful signup, login with the same email and password returns the new user |
| MockAuth.UserStore.constructor | src/lib/mockAuth.ts:10 | the registry starts empty |
| MockAuth.UserStore.LogIn | src/lib/mockAuth.ts:93-111 | login reads the registry and returns a stored user |
| MockAuth.UserStore.SignUp | src/lib/mockAuth.ts:140-141 | a successful signup replaces the registry with the appended list, keeps emails distinct, and makes the new user loggable |
| Auth.InitialState | src/contexts/AuthContext.tsx:9-13 | no user, not authenticated, loading |
| Auth.AuthProvider.constructor | src/contexts/AuthContext.tsx:24 | the state starts as the initial state |
| Auth.AuthProvider.PersistUser | src/contexts/AuthContext.tsx:26-39 | removes the session entry for no user and stores the user otherwise; does nothing without a window |
| Auth.AuthProvider.RestoreSession | src/contexts/AuthContext.tsx:44-98 | no entry: only `isLoading` clears; an entry with a user: that user is authenticated; an entry without a user, or malformed: the entry is removed and the state is signed out; afterwards not loading and coherent |
| Auth.AuthProvider.Login | src/contexts/AuthContext.tsx:107-130 | success persists and authenticates the user; failure changes only `isLoading` and passes the error on |
| Auth.AuthProvider.Signup | src/contexts/AuthContext.tsx:132-155 | the same transitions as login, for the signup result |
| Auth.AuthProvider.Logout | src/contexts/AuthContext.tsx:157-168 | whether or not the mock logout fails, the entry is removed and the state is signed out |
| Auth.LoginThenReload | src/contexts/AuthContext.tsx:68-118 | a later mount on the same storage restores exactly the user a successful login persisted |
| ClassNames.NumberToString | src/lib/utils.ts:4 | an integer renders as its decimal digits, after a `-` when it is negative (what `String` gives for integers below 2^53 in magnitude) |
| ClassNames.DigitsRoundTrip | src/lib/utils.ts:4 | reading the rendered digits back gives the number |
| ClassNames.ToString | src/lib/utils.ts:3-5 | strings pass through and integers render as their decimal digits |
| ClassNames.FalsyContributesNothing | src/lib/utils.ts:11 | a falsy argument, wherever it stands, changes nothing |
| ClassNames.ArrayFlattens | src/lib/utils.ts:13-16 | a nested array contributes its elements in place, depth first and left to right |
| ClassNames.LeavesNonEmpty | src/lib/utils.ts:11-18 | no kept class name is empty |
| ClassNames.Join | src/lib/utils.ts:23 | joining no names gives `''`, and joining one name gives that name |
| ClassNames.SplitJoin | src/lib/utils.ts:23 | splitting on spaces undoes joining with single spaces when no name contains a space |
| ClassNames.Append | src/lib/utils.ts:10-19 | `append` pushes exactly the kept leaves of the value, in order, after what is already collected |
| ClassNames.Cn | src/lib/utils.ts:7-24 | `cn` is the kept leaves of all inputs, in order, joined by single spaces |
| ClassNames.CnOfNothing | src/lib/utils.ts:21-23 | no inputs, or only falsy ones, give `''` |
| ClassNames.CnSplits | src/lib/utils.ts:23 | splitting the result on spaces gives back the kept leaves when none contains a space |
| Tabs.SanitizeChar | src/components/ui/Tabs.tsx:29 | an allowed character is kept; any other becomes one dash per UTF-16 code unit |
| Tabs.Sanitize | src/components/ui/Tabs.tsx:29 | the output has only allowed characters and as many as the input has UTF-16 code units |
| Tabs.SanitizeAllowed | src/components/ui/Tabs.tsx:29 | a string of allowed characters is unchanged |
| Tabs.SanitizeIdempotent | src/components/ui/Tabs.tsx:29 | sanitising twice is sanitising once |
| Tabs.SanitizePointwise | src/components/ui/Tabs.tsx:29 | on Basic Multilingual Plane text the length is kept and each position is kept or replaced by `-` |
| Tabs.SanitizeCollides | src/components/ui/Tabs.tsx:78-80 | the distinct values `"a b"` and `"a-b"` get the same sanitised id part |
| Tabs.TabId | src/components/ui/Tabs.tsx:78-79 | a trigger id is the base id, then `-tab-`, then the sanitised value, and nothing else |
| Tabs.PanelId | src/components/ui/Tabs.tsx:148-150 | a panel id is the base id, then `-panel-`, then the sanitised value, and nothing else |
| Tabs.IdsMatch | src/components/ui/Tabs.tsx:78-80 | trigger ids and panel ids (also lines 148-150) agree exactly when the values sanitise alike, and no trigger id is a panel id |
| Tabs.IndexOf | src/components/ui/Tabs.tsx:86-87 | `indexOf` gives the first position of the element, and -1 exactly when it is absent |
| Tabs.PreviousIndex | src/components/ui/Tabs.tsx:95 | from a tab's position, the previous position modulo the tab count |
| Tabs.NextIndex | src/components/ui/Tabs.tsx:100 | from a tab's position, the next position modulo the tab count |
| Tabs.StepsWrap | src/components/ui/Tabs.tsx:92-101 | from any tab, both steps stay among the tabs and undo each other; the first wraps to the last and the last to the first |
| Tabs.HandleKeyDown | src/components/ui/Tabs.tsx:82-117 | for a trigger in the list, arrow keys go to the previous or next position modulo the tab count, Home and End go to the ends; only these keys prevent the default; any other key, or no tab list, activates nothing; every activated index is a tab |
| Tabs.TabsState.constructor | src/components/ui/Tabs.tsx:41 | the internal value starts as `defaultValue` |
| Tabs.TabsState.ActiveValue | src/components/ui/Tabs.tsx:42 | the active value is the `value` prop when given, the internal value otherwise |
| Tabs.TabsState.SetActiveValue | src/components/ui/Tabs.tsx:44-49 | uncontrolled tabs take the new value; controlled tabs keep theirs; `onValueChange` always receives it when given |
| Tabs.KeyThenClick | src/components/ui/Tabs.tsx:114-127 | in uncontrolled tabs, the tab a navigation key selects becomes the active one |
| Upload.SubmitError | src/routes/Upload.tsx:181-196 | the file method needs a file; the URL method needs a non-empty trimmed URL, then a valid one; each failure has its message and field |
| Upload.SubmissionTitle | src/routes/Upload.tsx:198-200 | the trimmed title, else the file name under the file method, else "Untitled upload" |
| Upload.BlankTitleFallsBack | src/routes/Upload.tsx:198-200 | an all-white-space title never becomes the submission title |
| Upload.Details | src/routes/Upload.tsx:209-224 | the details of the active method, with the trimmed description and the trimmed URL |
| Upload.UploadForm.constructor | src/routes/Upload.tsx:62-76 | the file method, empty inputs, no errors, not busy |
| Upload.UploadForm.MethodChange | src/routes/Upload.tsx:89-108 | a no-op while busy; otherwise selects the method, clears the details, the processed flag and both errors, and empties the other method's input |
| Upload.UploadForm.FileChange | src/routes/Upload.tsx:110-117 | selects the picked file (or none) and clears the details, the processed flag and the file error |
| Upload.UploadForm.DragOver | src/routes/Upload.tsx:119-123 | the drop zone is highlighted, and no other field changes |
| Upload.UploadForm.DragLeave | src/routes/Upload.tsx:125-129 | the highlight ends, and no other field changes |
| Upload.UploadForm.Drop | src/routes/Upload.tsx:131-150 | a dropped file forces the file method, selects it, empties the URL and clears the file error; the highlight ends after any drop |
| Upload.UploadForm.UrlChange | src/routes/Upload.tsx:156-164 | stores the text and clears the details, the processed flag and the URL error |
| Upload.UploadForm.SetTitle | src/routes/Upload.tsx:310 | stores the title |
| Upload.UploadForm.SetDescription | src/routes/Upload.tsx:317 | stores the description |
| Upload.UploadForm.Submit | src/routes/Upload.tsx:166-232 | a no-op while busy; a failed validation writes its message and starts nothing; a passing one sets both busy flags, records the details and arms one completion |
| Upload.UploadForm.Validate | src/routes/Upload.tsx:173-227 | past the busy guard: a failed validation shows its message in its own cell and starts nothing; a passing one records the details and arms exactly one completion |
| Upload.UploadForm.ShowErrors | src/routes/Upload.tsx:173-196 | the processed flag clears, and each error cell shows the failure that is its own |
| Upload.UploadForm.StartProcessing | src/routes/Upload.tsx:202-227 | both busy flags are set, the details are recorded and exactly one completion timeout is pending |
| Upload.UploadForm.CompleteProcessing | src/routes/Upload.tsx:227-231 | completion clears both busy flags, leaves no timeout pending and marks the upload processed; the form's inputs, details and errors are untouched |
| Upload.UploadForm.RemoveFile | src/routes/Upload.tsx:234-241 | deselects the file and clears the details and the processed flag; nothing else changes |
| Upload.UploadForm.Unmount | src/routes/Upload.tsx:78-84 | the cleanup leaves no completion pending |
| Upload.SubmitFileExample | src/routes/Upload.tsx:198-231 | a file upload with a blank title ends processed, not busy, titled by the file name |
| Upload.InvalidUrlExample | src/routes/Upload.tsx:187-195 | an invalid URL sets "Please enter a valid URL." and starts nothing |
| Upload.RemoveWhileProcessingExample | src/routes/Upload.tsx:234-241 | removing the file during processing leaves the upload processed without details |
| Tooltip.TooltipState.constructor | src/components/ui/Tooltip.tsx:27 | the delay defaults to 100 ms; closed, no timer |
| Tooltip.TooltipState.AtMostOnePending | src/components/ui/Tooltip.tsx:36-55 | at most one timeout is pending, and it is the open or the close timer |
| Tooltip.TooltipState.AriaDescribedBy | src/components/ui/Tooltip.tsx:143 | the tooltip id exactly while it is open |
| Tooltip.TooltipState.ClearTimers | src/components/ui/Tooltip.tsx:36-45 | neither timer is left pending and both refs are empty |
| Tooltip.TooltipState.Show | src/components/ui/Tooltip.tsx:47-50 | exactly the open timer is pending, due `delay` ms later |
| Tooltip.TooltipState.Hide | src/components/ui/Tooltip.tsx:52-55 | exactly the close timer is pending, due 50 ms later |
| Tooltip.TooltipState.Fire | src/components/ui/Tooltip.tsx:49-54 | the open timer opens the tooltip and the close timer closes it; nothing remains pending |
| Tooltip.TooltipState.KeyDown | src/components/ui/Tooltip.tsx:137-142 | Escape hides: exactly the close timer is pending, under a fresh handle, due 50 ms later; any other key changes nothing |
| Tooltip.TooltipState.PointerDown | src/components/ui/Tooltip.tsx:96-106 | while open, a press outside the attached trigger hides: exactly the close timer is pending, under a fresh handle, due 50 ms later; otherwise nothing changes |
| Tooltip.TooltipState.Unmount | src/components/ui/Tooltip.tsx:57 | the cleanup leaves no timer pending |
| Tooltip.HoverExample | src/components/ui/Tooltip.tsx:47-55 | a hover opens the tooltip 100 ms later, and leaving closes it 50 ms after that |
| Tooltip.QuickPassExample | src/components/ui/Tooltip.tsx:47-55 | leaving before the delay cancels the opening |
| DarkMode.BoolToString | src/hooks/useDarkMode.ts:24 | the stored string is `"true"` exactly for dark, `"false"` otherwise |
| DarkMode.ParseStored | src/hooks/useDarkMode.ts:9 | a stored string reads as dark exactly when it is the string that dark is written as |
| DarkMode.StoredRoundTrip | src/hooks/useDarkMode.ts:9-24 | storing a flag and reading it back gives the flag; a stored string survives a read and write exactly when it is `"true"` or `"false"` |
| DarkMode.InitialDarkMode | src/hooks/useDarkMode.ts:4-13 | no window: light; a stored string: dark exactly for `"true"`; nothing stored: the system preference |
| DarkMode.DarkModeHook.constructor | src/hooks/useDarkMode.ts:4-25 | the initial value is read, then the root class and the stored string follow it; other root classes are kept |
| DarkMode.DarkModeHook.Effect | src/hooks/useDarkMode.ts:15-25 | the root has the `dark` class exactly when dark, and the flag's string is stored |
| DarkMode.DarkModeHook.Toggle | src/hooks/useDarkMode.ts:27-29 | negates the flag and keeps root and storage in step |
| DarkMode.DarkModeHook.SetDarkMode | src/hooks/useDarkMode.ts:31-33 | sets exactly the given value and keeps root and storage in step |
| DarkMode.ToggleTwiceExample | src/hooks/useDarkMode.ts:27-29 | toggling twice restores the flag, the stored string and the root's classes |
| DarkMode.ReloadExample | src/hooks/useDarkMode.ts:7-33 | a value set survives a reload, whatever the system preference |

## Left out

- Rendering, portals, context plumbing and listener registration are not modelled. Handlers are methods, and a toast without a mounted node (`itemRef` null, src/components/ui/Toast.tsx:144-145) is not modelled.
- Clocks are integers. `performance.now()` is floating point, and so is `remainingTimeRef` after a pause.
- A toast's `onDismiss` is recorded as a call. It is not wired back into the provider's list.
- `publish` when the caller passes an explicit `id: undefined` is not modelled. The spread in `{ id, ...options }` would then overwrite the generated id with `undefined`.
- `generateId`, `createId`, `useId` and `crypto.randomUUID` are not modelled; their results are parameters.
- localStorage, `JSON.parse`/`JSON.stringify`, the simulated network delay and async/await are not modelled. Storage is an optional slot, and a session entry is classified by how `restoreSession` reads it. The mock results that `AuthProvider` awaits are parameters.
- `readUsersFromStorage`/`persistUsers` are not modelled. The mock registry is the in-memory list only.
- AuthProvider's `isActive` flag is not modelled. `restoreSession` runs synchronously inside the effect, so the flag never blocks a write.
- The mock `logout` is not modelled; it only waits.
- ClassNames.NumberToString: covers integers only, where the decimal digits match `String` for magnitudes below 2^53. Fractions, `NaN`, `Infinity` and `-0` are not modelled, nor the exponent form `String` uses from 10^21 up or the rounding of integers beyond 2^53. `NaN` and `-0` are falsy, so `cn` would drop them.
- ClassNames.ToString: inherits the integer-only numbers of `NumberToString`.
- Timers.Due: the delay is an integer. A fractional or infinite delay is not modelled; `Infinity` converts to 0, so a toast given that duration would expire at once. The clamp of deeply nested timeouts to 4 ms is not modelled either.
- Strings.LowerChar: lower-cases ASCII letters only. JavaScript `toLowerCase` also maps other Unicode letters.
- The regular-expression engine is not modelled. `EMAIL_PATTERN` is a predicate on the whole string.
- `isValidUrl` (WHATWG URL parsing) is an uninterpreted predicate.
- `formatFileSize` is floating-point formatting and is not modelled.
- The contents of the file input (`fileInputRef.current.value = ''`) and the browse click are not modelled; they are DOM state.
- The Tooltip's position computation is not modelled; it is floating-point layout.
- The Tooltip's focus, blur and mouse handlers are the same calls as `Show` and `Hide`. Calls to the child's own handlers are not modelled.
- `useDarkMode` in an environment without a window is modelled only in `InitialDarkMode`.
- Modal, Sheet, the presentational components, pages and route guards are not modelled.

## Findings

| source | as written | input that shows it | evidently intended | confidence | as-written member | corrected member |
|---|---|---|---|---|---|---|
| src/components/ui/Toast.tsx:96,159-166 | `onDismiss` is a new closure on every render of the viewport, so each change of the toast list re-runs every toast's countdown effect; the cleanup cancels the timeout without subtracting the elapsed time, and the effect calls `startTimer` even while the pointer is over the toast | a 5000 ms toast mounted at 1, hovered at 101, another toast published at 201, pointer left at 301: two timeouts are pending, the first due at 5101 | a re-render neither restarts a countdown from stale remaining time nor arms a timeout under the pointer: with the hover, one timeout due at 5201 | not executed | Toast.ToastItem.RerunEffect | Toast.ToastItem.RerunEffectCorrected |
