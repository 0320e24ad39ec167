# Job board: account verification and page decisions, in Dafny

This project models the parts of a job-board web application that make decisions.

**Back end** (`UserController`): the account directory and its five operations.

- `register` creates an unverified account. It draws a six-digit code that expires after ten minutes.
- `login` checks the raw e-mail, the password and the role. In that order.
- `verifyOTP` runs a fixed chain of checks: missing input, unknown user, no code, expired, mismatch. On success it marks the account verified and clears the code.
- `resendOTP` overwrites the code and its expiry, unless the account is already verified.
- `updateProfile` overwrites the truthy fields of a profile update.

The directory is a class whose methods change its sequence of records. Each method's postcondition gives the new directory in terms of the old one. Pure functions state each decision, and lemmas prove the properties of the verification state machine about them.

**Front end**:

- the route guards (`RouteGuards`), the authentication hooks (`AuthHooks`) and the router table (`AppRoutes`);
- the code-entry widget (`VerifyOtpForm`): a class holding six slots and a countdown, and its pure parts (`isNaN`, paste, join, `m:ss` formatting);
- the job search filter (`JobSearch`) and the card labels (`JobCards`);
- the latest-jobs section (`LatestJobs`);
- the apply logic of the job page (`JobDescription`): a class holding the stored job and the `isApplied` flag.

`Strings` models the JavaScript string operations the code relies on: `trim` with the ECMAScript whitespace set, ASCII `toLowerCase`, `includes`, `split`, `join`, `padStart` and decimal rendering. `Session` holds the signed-in user. JavaScript tells `null` and `undefined` apart, and so does `AuthUser`, because the guards do. A missing text field is the empty string throughout.

Three behaviours of the code are easy to get wrong, and the model keeps them as the code has them.

- A code is accepted at exactly `now == expiry`. The rejection test is `expiry < now`, not `now >= expiry`.
- `resendOTP` answers 200 even when the e-mail could not be sent. The sender catches every error and returns `false`, and the controller ignores that value.
- Registering again with a registered address does not replace that account's code. It is refused with "User already exists with this email."

## Model

| member | source | states |
|---|---|---|
| `Strings.Trim` | backend/controllers/user.controller.js:186-187 | `trim`: the result is the input with its leading and trailing whitespace cut off, and it neither starts nor ends with whitespace |
| `Strings.TrimUnique` | backend/controllers/user.controller.js:186-187 | any slice with only whitespace outside it and none at its ends is what `trim` returns, so the contract of `Trim` fixes its result |
| `Strings.TrimIgnoresPadding` | backend/controllers/user.controller.js:13 | whitespace added before or after a string is removed again by `trim` |
| `Strings.TrimEmptyIffBlank` | backend/controllers/user.controller.js:13-15 | `trim` gives the empty string exactly for a string made only of whitespace |
| `Strings.TrimIdempotent` | backend/controllers/user.controller.js:245-246 | trimming twice is trimming once |
| `Strings.ToLower` | backend/controllers/user.controller.js:13 | `toLowerCase`: same length, each character lowered, whitespace kept |
| `Strings.ToLowerIdempotent` | frontend/src/components/Jobs.jsx:18-20 | lowering twice is lowering once |
| `Strings.LowerCommutesWithTrim` | backend/controllers/user.controller.js:13 | lower-casing and trimming can be done in either order |
| `Strings.Includes` | frontend/src/components/Jobs.jsx:18-20 | `includes` holds exactly when the needle occurs at some position |
| `Strings.NatToDecimal` | backend/controllers/user.controller.js:43 | `toString` of a natural number: non-empty digits, no leading zero unless zero, and it parses back to the number |
| `Strings.NatToDecimalInjective` | backend/controllers/user.controller.js:43 | different numbers render differently |
| `Strings.DecimalLength` | backend/controllers/user.controller.js:43 | a number between 10^(k-1) and 10^k renders in k digits |
| `Strings.IntToDecimal` | frontend/src/components/Job.jsx:22 | an integer in a template literal: a minus sign exactly for negatives, then the digits of the magnitude |
| `Strings.PadStart` | frontend/src/components/auth/VerifyOTP.jsx:142 | `padStart`: unchanged if long enough, else exactly `width` long, ending in the input and filled before it |
| `Strings.ConcatAppend` | frontend/src/components/auth/VerifyOTP.jsx:70 | `join('')` of two runs of parts is the join of each, concatenated |
| `Strings.Split` | backend/controllers/user.controller.js:362 | `split(",")`: at least one piece, none holds the separator, and joining the pieces with it gives the input back |
| `UserController.HashPassword` | backend/controllers/user.controller.js:32 | the stored hash matches the password it was made from |
| `UserController.HashAcceptsOnlyItsPassword` | backend/controllers/user.controller.js:132 | `bcrypt.compare` accepts a stored hash for the password it was made from and for no other |
| `UserController.IssueCode` | backend/controllers/user.controller.js:43 | a drawn number in [100000, 999999] becomes six digits with no leading zero that parse back to the number |
| `UserController.IssueCodeInjective` | backend/controllers/user.controller.js:43 | two draws give equal codes exactly when the draws are equal |
| `UserController.IssuedCodeIsTrimmed` | backend/controllers/user.controller.js:245 | trimming an issued code leaves it unchanged |
| `UserController.NormalizeEmail` | backend/controllers/user.controller.js:13 | `trim().toLowerCase()`: the lower-cased middle of the address once the surrounding whitespace is cut; no capital letter and no whitespace at the ends; empty exactly for a blank address |
| `UserController.NormalizeEmailVariants` | backend/controllers/user.controller.js:13-23 | an address padded with whitespace, or differing only in the case of its letters, normalises to the same address, so `Foo@Bar.com` and ` foo@bar.com ` look up the same record |
| `UserController.NormalizeEmailIdempotent` | backend/controllers/user.controller.js:186 | normalising an already normalised address changes nothing |
| `UserController.UpperCaseEmailUnreachable` | backend/controllers/user.controller.js:375 | an address with a capital letter, which the profile update may store, is the normal form of no input, so verification and re-issue cannot reach that record |
| `UserController.FindByEmail` | backend/controllers/user.controller.js:23 | `findOne({email})`: the first record whose e-mail is exactly the key, or none when no record has it |
| `UserController.RegisterFieldsMissing` | backend/controllers/user.controller.js:13-15 | a registration is incomplete exactly when the name, phone, password or role is empty, or the e-mail is only whitespace |
| `UserController.RegisterOutcome.Reply` | backend/controllers/user.controller.js:15-95 | a created account is a 201 with `success: true`; both refusals are 400s |
| `UserController.NewAccount` | backend/controllers/user.controller.js:53-65 | a new record is unverified and consistent, holds the issued code, expires at `now + 600000` and matches the password |
| `UserController.LoginOutcomeOf` | backend/controllers/user.controller.js:119-145 | missing fields first; an unknown address and a wrong password give the same outcome; the wrong-role answer comes exactly when the first record with the address has the right password and another role; success names that first record, with the right password and role |
| `UserController.LoginOutcome.Reply` | backend/controllers/user.controller.js:119-162 | only a login is a 200 with `success: true`; every refusal is a 400 |
| `UserController.LoginIgnoresVerification` | backend/controllers/user.controller.js:125-145 | the login outcome does not depend on `isVerified` |
| `UserController.LoginWithUnnormalizedEmailFails` | backend/controllers/user.controller.js:125 | login looks up the raw address, so an address that is not in normal form matches no normalised record |
| `UserController.VerifyOutcome.Reply` | backend/controllers/user.controller.js:195-273 | only success is a 200 with `success: true`; every failure is a 400 |
| `UserController.SubmittedCode` | backend/controllers/user.controller.js:187 | `String(otp).trim()`: an absent code becomes the text "undefined"; a present one is trimmed |
| `UserController.CheckCode` | backend/controllers/user.controller.js:229-256 | the checks in order: "No OTP found" exactly when the stored code is absent or empty; otherwise expired exactly when the expiry is before now, even for a matching code; otherwise a mismatch exactly when the trimmed codes differ; otherwise verified |
| `UserController.VerifyOutcomeOf` | backend/controllers/user.controller.js:186-256 | the checks run in the order missing fields, unknown user, then the stored-code checks, and the first failure wins |
| `UserController.AbsentCodeIsNotMissing` | backend/controllers/user.controller.js:187-200 | a request without a code is never rejected as missing a field: "undefined" is compared as the code, and no issued code equals it |
| `UserController.MarkVerified` | backend/controllers/user.controller.js:260-262 | verified, with code and expiry cleared, and every other field unchanged |
| `UserController.CodeAcceptedUntilExpiry` | backend/controllers/user.controller.js:237 | a new record accepts its own code at every instant up to and including the expiry, and rejects it as expired afterwards |
| `UserController.WrongCodeIsMismatch` | backend/controllers/user.controller.js:245-256 | a different code submitted in time is a mismatch |
| `UserController.RepeatVerifyFindsNoCode` | backend/controllers/user.controller.js:229-234 | after a successful verification, a repeated one answers "No OTP found" |
| `UserController.ResendOutcomeOf` | backend/controllers/user.controller.js:286-309 | a missing address, an unknown one, a verified record and a re-issue, decided in that order |
| `UserController.ResendOutcome.Reply` | backend/controllers/user.controller.js:288-332 | an unknown address is the only 404; a re-issued code is the only 200 with `success: true`; the other refusals are 400s |
| `UserController.Reissue` | backend/controllers/user.controller.js:312-321 | only the code and the expiry change, to the new code and `now + 600000`, and a consistent unverified record stays consistent |
| `UserController.ReissueInvalidatesOldCode` | backend/controllers/user.controller.js:319-320 | after a re-issue with a different draw, the old code is a mismatch for the whole new window and the new code is accepted |
| `UserController.ApplyProfileUpdate` | backend/controllers/user.controller.js:360-384 | each truthy field overwrites its counterpart: the e-mail verbatim, the skills as the split of the input on "," (which join back to it); an upload sets the résumé URL and original name, and without one they stay; password, role, photo and verification state stay |
| `UserController.ProfileUpdateIdempotent` | backend/controllers/user.controller.js:374-384 | applying the same update twice gives the record one application gives |
| `UserController.UpdateOutcome.Reply` | backend/controllers/user.controller.js:367-398 | an updated profile is a 200 with `success: true`; an unknown user is a 400 |
| `UserController.UserDirectory.constructor` | backend/controllers/user.controller.js:8 | an empty directory, in which every record is trivially consistent |
| `UserController.UserDirectory.Register` | backend/controllers/user.controller.js:8-114 | missing field or taken address: directory unchanged; otherwise exactly one new record appended; consistency kept |
| `UserController.UserDirectory.Login` | backend/controllers/user.controller.js:115-170 | changes nothing and answers the login decision |
| `UserController.UserDirectory.VerifyOtp` | backend/controllers/user.controller.js:181-281 | every failure leaves the directory unchanged; success replaces only the found record, by its verified form; consistency kept |
| `UserController.UserDirectory.ResendOtp` | backend/controllers/user.controller.js:283-343 | the outcome ignores whether the e-mail was delivered; refusals change nothing; success re-issues the found record's code only; consistency kept |
| `UserController.UserDirectory.UpdateProfile` | backend/controllers/user.controller.js:345-406 | an unknown id changes nothing; otherwise only that record is updated |
| `UserController.RegisterThenVerify` | backend/controllers/user.controller.js:181-263 | register, then a wrong code is a mismatch, the right code verifies, and repeating it finds no code |
| `UserController.RegisterTwice` | backend/controllers/user.controller.js:13-29 | registering with the first address padded with whitespace and changed in case is refused, and the first record keeps its code |
| `UserController.ResendThenVerify` | backend/controllers/user.controller.js:283-335 | after a re-issue the first code is a mismatch and the second verifies; a verified account is then refused a re-issue |
| `RouteGuards.VerificationRequired` | frontend/src/components/VerificationRequired.jsx:7-29 | renders exactly for a signed-in, verified user; otherwise redirects to `/login` or `/verify-otp`; redirects exactly when it does not render |
| `RouteGuards.SignedInLanding` | frontend/src/components/PublicRoute.jsx:13-20 | unverified users go to `/verify-otp`, verified recruiters to `/admin/companies`, everyone else to `/` |
| `RouteGuards.PublicRoute` | frontend/src/components/PublicRoute.jsx:6-32 | renders exactly when nobody is signed in, and then does not redirect; a signed-in user is sent to their landing page |
| `RouteGuards.RoleGuard` | frontend/src/components/admin/ProtectedRoute.jsx:11-25 | renders exactly for a user with the role; `null` goes to `/login`, another role to `/`; for `undefined` the effect throws |
| `RouteGuards.RecruiterProtectedRoute` | frontend/src/components/admin/ProtectedRoute.jsx:7-26 | renders exactly for a signed-in recruiter |
| `RouteGuards.StudentProtectedRoute` | frontend/src/components/StudentProtectedRoute.jsx:7-26 | renders exactly for a signed-in student |
| `RouteGuards.ProtectedRoute` | frontend/src/components/ProtectedRoute.jsx:7-23 | renders exactly for a signed-in user; only `null` is redirected to `/login` |
| `RouteGuards.RoleGuardsExclusive` | frontend/src/components/StudentProtectedRoute.jsx:15-22 | no user passes both the student and the recruiter guard |
| `RouteGuards.ProtectedRouteIgnoresRole` | frontend/src/components/ProtectedRoute.jsx:11-22 | the generic guard gives the same answer whatever the role |
| `RouteGuards.UndefinedUserStranded` | frontend/src/components/ProtectedRoute.jsx:12-20 | for `undefined` the generic guard neither renders nor redirects |
| `RouteGuards.RoleGuardPartialOnUndefined` | frontend/src/components/admin/ProtectedRoute.jsx:12-15 | the role guards' effect throws for `undefined`, where `null` would be sent to `/login` |
| `AuthHooks.UseRequireAuth` | frontend/src/hooks/useAuth.jsx:7-19 | redirects to `/login` exactly when there is no user, and returns the user unchanged |
| `AuthHooks.UseRequireRole` | frontend/src/hooks/useAuth.jsx:22-37 | no user goes to `/login`; another role goes to `/`; no redirect exactly for a user with the role; never throws |
| `AuthHooks.UseRequireStudent` | frontend/src/hooks/useAuth.jsx:22-37 | stays exactly for a signed-in student |
| `AuthHooks.UseRequireRecruiter` | frontend/src/hooks/useAuth.jsx:40-55 | stays exactly for a signed-in recruiter |
| `AuthHooks.UseIsAuthenticated` | frontend/src/hooks/useAuth.jsx:58-61 | true exactly when a user object is present |
| `AuthHooks.UseUserRole` | frontend/src/hooks/useAuth.jsx:64-67 | the role, or none when there is no user or the role is empty |
| `AuthHooks.RoleHookMatchesGuard` | frontend/src/hooks/useAuth.jsx:26-33 | the role hooks and the role guards redirect alike, except for `undefined`: the hook sends that visitor to `/login` and the guard throws |
| `AppRoutes.GuardFor` | frontend/src/App.jsx:22-80 | the guard of the first route with the pattern, or none when no route has it |
| `AppRoutes.Apply` | frontend/src/App.jsx:22-80 | a page renders exactly when the browser stays; an unguarded page always renders; only the role guards throw, and only for `undefined`; no guarded page except the public ones renders for a falsy user, and a public page never renders for a signed-in one |
| `AppRoutes.Visit` | frontend/src/App.jsx:22-80 | a path has a route exactly when the table declares it; then the page renders exactly when the browser stays |
| `AppRoutes.RoutePathsDistinct` | frontend/src/App.jsx:22-80 | no two routes share a path pattern |
| `AppRoutes.EarlierPathsDiffer` | frontend/src/App.jsx:22-80 | each route's pattern differs from every earlier one |
| `AppRoutes.AdminRoutesAreRecruiterOnly` | frontend/src/App.jsx:56-79 | a path begins `/admin/` exactly when its route is recruiter-only |
| `AppRoutes.GuardAssignments` | frontend/src/App.jsx:23-54 | `/` and `/verify-otp` are open; `/login` and `/signup` are public-only; the job pages need verification; `/profile` is student-only |
| `AppRoutes.UnverifiedUserSentToCodeEntry` | frontend/src/App.jsx:27-30 | an unverified user is sent from `/jobs` to `/verify-otp`, and that page opens for them |
| `AppRoutes.StudentKeptOutOfAdmin` | frontend/src/App.jsx:56-79 | a student is sent home from every `/admin/` page |
| `AppRoutes.GuardForFinds` | frontend/src/App.jsx:22-80 | the lookup finds the guard of a route whose pattern appears nowhere earlier |
| `AppRoutes.AccessPolicy` | frontend/src/App.jsx:22-80 | every declared page is reachable; `/admin/` pages render exactly for a recruiter, the job pages exactly for a verified user, `/login` and `/signup` exactly for a visitor with no user, `/profile` exactly for a student, and `/` and `/verify-otp` for anyone |
| `AppRoutes.GuardOfPath` | frontend/src/App.jsx:23-54 | the guard each non-admin pattern carries |
| `VerifyOtpForm.DigitsAreNumbers` | frontend/src/components/auth/VerifyOTP.jsx:39 | typing digits passes the `isNaN` test |
| `VerifyOtpForm.BlankIsNumber` | frontend/src/components/auth/VerifyOTP.jsx:39 | the empty string and a space pass `isNaN`, so a slot can be cleared |
| `VerifyOtpForm.LetterIsNaN` | frontend/src/components/auth/VerifyOTP.jsx:39 | a single letter fails `isNaN`, so typing one changes nothing |
| `VerifyOtpForm.IsNaN` | frontend/src/components/auth/VerifyOTP.jsx:39 | `isNaN` of a string by the ECMAScript number grammar; blank or all-digit text is always a number |
| `VerifyOtpForm.PastedSlots` | frontend/src/components/auth/VerifyOTP.jsx:59-61 | six slots: the pasted characters one per slot, unfiltered, then empty slots |
| `VerifyOtpForm.Singles` | frontend/src/components/auth/VerifyOTP.jsx:60 | `split('')`: one slot per character |
| `VerifyOtpForm.ConcatSingles` | frontend/src/components/auth/VerifyOTP.jsx:60 | joining the split characters gives the text back |
| `VerifyOtpForm.ConcatEmpties` | frontend/src/components/auth/VerifyOTP.jsx:61 | joining empty slots gives the empty string |
| `VerifyOtpForm.PasteThenJoin` | frontend/src/components/auth/VerifyOTP.jsx:59-61 | the slots after a paste join back to the pasted text cut to six characters |
| `VerifyOtpForm.SubmittedCode` | frontend/src/components/auth/VerifyOTP.jsx:70-81 | a code is sent exactly when the joined slots have six characters, and it is that join |
| `VerifyOtpForm.GapBlocksSubmit` | frontend/src/components/auth/VerifyOTP.jsx:78-81 | single-character slots with one empty slot join to fewer characters than there are slots, so nothing is sent |
| `VerifyOtpForm.AtMostOneEach` | frontend/src/components/auth/VerifyOTP.jsx:70 | slots of at most one character join to at most one character per slot |
| `VerifyOtpForm.FormatTime` | frontend/src/components/auth/VerifyOTP.jsx:139-143 | the text is the minutes in decimal without a leading zero, a colon, and the seconds as exactly two digits, each reading back as its value |
| `VerifyOtpForm.SecondsField` | frontend/src/components/auth/VerifyOTP.jsx:142 | the seconds are always exactly two digits that read back as the seconds |
| `VerifyOtpForm.FirstColonAfterDigits` | frontend/src/components/auth/VerifyOTP.jsx:142 | the first colon of the text is the one after the minutes |
| `VerifyOtpForm.FormatTimeRoundTrip` | frontend/src/components/auth/VerifyOTP.jsx:139-143 | reading the `m:ss` text back (a reader written for this proof) gives the seconds it was made from |
| `VerifyOtpForm.TimerStartsAtTenMinutes` | frontend/src/components/auth/VerifyOTP.jsx:18 | the starting countdown shows "10:00" |
| `VerifyOtpForm.TimerLabel` | frontend/src/components/auth/VerifyOTP.jsx:188-194 | the remaining time while it is positive, then "OTP has expired!" |
| `VerifyOtpForm.MountRedirect` | frontend/src/components/auth/VerifyOTP.jsx:26-28 | a verified user is sent to `/`, anyone else stays |
| `VerifyOtpForm.AfterVerifyPath` | frontend/src/components/auth/VerifyOTP.jsx:100-106 | after success a recruiter goes to `/admin/companies`, anyone else to `/` |
| `VerifyOtpForm.AfterVerifyMatchesLanding` | frontend/src/components/auth/VerifyOTP.jsx:100-106 | after success the page goes where the login page would send the now-verified user |
| `VerifyOtpForm.PastedIssuedCodeIsAccepted` | frontend/src/components/auth/VerifyOTP.jsx:59-90 | pasting the issued code before it expires submits that code, and the server verifies it |
| `VerifyOtpForm.ClearedSlotsDoNotSubmit` | frontend/src/components/auth/VerifyOTP.jsx:111 | cleared slots send nothing |
| `VerifyOtpForm.OtpEntry.constructor` | frontend/src/components/auth/VerifyOTP.jsx:15-18 | six empty slots and a countdown of 600 seconds |
| `VerifyOtpForm.OtpEntry.HandleChange` | frontend/src/components/auth/VerifyOTP.jsx:38-43 | a value failing `isNaN` changes nothing; any other value replaces slot `index` and no other; six slots kept |
| `VerifyOtpForm.OtpEntry.HandlePaste` | frontend/src/components/auth/VerifyOTP.jsx:57-61 | the slots become the pasted slots; the countdown is unchanged |
| `VerifyOtpForm.OtpEntry.Tick` | frontend/src/components/auth/VerifyOTP.jsx:32 | the countdown drops by one and stops at zero, never going negative |
| `VerifyOtpForm.OtpEntry.ResendSucceeded` | frontend/src/components/auth/VerifyOTP.jsx:125-128 | the countdown restarts at 600 and the slots are cleared |
| `VerifyOtpForm.OtpEntry.VerificationFailed` | frontend/src/components/auth/VerifyOTP.jsx:111 | the slots are cleared and the countdown runs on |
| `VerifyOtpForm.OtpEntry.Submit` | frontend/src/components/auth/VerifyOTP.jsx:68-81 | a code is sent exactly when the joined slots have six characters |
| `VerifyOtpForm.OtpEntry.SubmitDisabled` | frontend/src/components/auth/VerifyOTP.jsx:198-207 | disabled while a request is in flight, and otherwise exactly when the countdown is at zero |
| `JobSearch.Keep` | frontend/src/components/Jobs.jsx:17-21 | each matching job is kept as often as it occurs, and no other job is kept |
| `JobSearch.FilterJobs` | frontend/src/components/Jobs.jsx:15-26 | an empty query shows the whole list; otherwise each job whose lowered title, description or location contains the lowered query is shown as often as it occurs, and no other job |
| `JobSearch.KeepIsSubsequence` | frontend/src/components/Jobs.jsx:17 | the kept jobs are in the list's order |
| `JobSearch.FilterIsSubsequence` | frontend/src/components/Jobs.jsx:15-26 | the shown list is an order-preserving subsequence of the full list |
| `JobSearch.SubsequenceOfItself` | frontend/src/components/Jobs.jsx:24 | the full list is a subsequence of itself |
| `JobSearch.MatchIgnoresQueryCase` | frontend/src/components/Jobs.jsx:18-20 | a query matches exactly when its lower-cased form does |
| `JobSearch.JobNoun` | frontend/src/components/Jobs.jsx:39 | "job" exactly for one result, "jobs" otherwise |
| `JobSearch.Matches` | frontend/src/components/Jobs.jsx:18-20 | the empty query matches every job; a match needs a field at least as long as the query |
| `JobCards.DaysAgo` | frontend/src/components/Job.jsx:15-19 | the floor of the elapsed days: whole days fit in the elapsed time, one more does not; negative exactly for a future timestamp |
| `JobCards.AgeLabel` | frontend/src/components/LatestJobCards.jsx:11-19 | "Today" exactly within the first day; "Yesterday" exactly within the second; otherwise the day count and " days ago" |
| `JobCards.FutureJobNegativeAge` | frontend/src/components/Job.jsx:20-22 | a job posted in the future reads "-N days ago" |
| `JobCards.WeekOldLabel` | frontend/src/components/Job.jsx:22 | a job seven days old reads "7 days ago" |
| `JobCards.LocationOr` | frontend/src/components/JobDescription.jsx:108 | the location, or the fallback when the location is empty |
| `JobCards.JobCardLocation` | frontend/src/components/Job.jsx:68 | a missing location shows as "India" |
| `JobCards.LatestCardLocation` | frontend/src/components/LatestJobCards.jsx:45 | a missing location shows as "Remote" |
| `JobCards.LocationFallbacksDiffer` | frontend/src/components/LatestJobCards.jsx:45 | the two card kinds agree on a job with a location, and disagree on one without |
| `JobCards.SaveClicked` | frontend/src/components/Job.jsx:108-115 | the save button asks for login exactly when there is no user |
| `JobCards.SaveNavigation` | frontend/src/components/Job.jsx:109-111 | only the login case navigates, to `/login` |
| `LatestJobs.ShownJobs` | frontend/src/components/LatestJobs.jsx:45 | the first `min(6, n)` jobs, in order |
| `LatestJobs.ShowsEmptyState` | frontend/src/components/LatestJobs.jsx:37 | the empty state shows exactly when there is no job, so exactly when no card would be shown |
| `LatestJobs.ShowsViewAll` | frontend/src/components/LatestJobs.jsx:59 | "View All Jobs" shows exactly when some job is left off the page |
| `LatestJobs.SixJobsAllShown` | frontend/src/components/LatestJobs.jsx:45-59 | with exactly six jobs all are shown and there is no button |
| `JobDescription.HasApplicant` | frontend/src/components/JobDescription.jsx:17 | `some`: true exactly when some application's applicant is the id |
| `JobDescription.AppliedBy` | frontend/src/components/JobDescription.jsx:17 | applied exactly when there is a job, a user, and an application by that user; never with no applications |
| `JobDescription.WithApplicant` | frontend/src/components/JobDescription.jsx:44 | exactly one application for the id is appended; earlier entries and other fields are kept |
| `JobDescription.AppendedApplicantFound` | frontend/src/components/JobDescription.jsx:44 | after the append the id is an applicant, and every other user's standing is unchanged |
| `JobDescription.ApplyKeepsInSync` | frontend/src/components/JobDescription.jsx:42-45 | after a successful application the stored job also counts the student as applied |
| `JobDescription.JobPage.constructor` | frontend/src/components/JobDescription.jsx:15-18 | `isApplied` starts from the job already in the store |
| `JobDescription.JobPage.ApplyJob` | frontend/src/components/JobDescription.jsx:25-52 | no user: sent to login; not a student: refused; failure: nothing changes; success: `isApplied` is set and one application is appended, except when no job is loaded |
| `JobDescription.JobPage.ClickApply` | frontend/src/components/JobDescription.jsx:112-114 | the button is inert while `isApplied` holds |
| `JobDescription.JobPage.FetchSucceeded` | frontend/src/components/JobDescription.jsx:54-67 | the fetched job is stored and `isApplied` is recomputed from it |

## Left out

- Sending e-mail is not modelled. This covers the verification and welcome messages and their templates. `ResendOtp` takes the sender's `true`/`false` report as a parameter, and it does not affect the outcome.
- bcrypt is an injective tag. The salt, the work factor and the hash text are not modelled.
- The signed session cookie (jwt) is the account id carried by `Registered` and `LoggedIn`. Expiry and signing are not modelled.
- Photo and résumé uploads to the media host are the URL they return, passed in as parameters.
- `logout` only clears the cookie, which is not modelled.
- Each request is modelled as one atomic step on the directory. The code awaits between reading a record and saving it, and Mongoose saves only the changed fields. Two requests can therefore interleave: a re-issue saved after a concurrent verification leaves a verified record with a pending code. That breaks the consistency `UserDirectory.Valid` keeps, and the model does not capture it.
- The Mongoose `User` schema and its unique index are not part of this model. The directory is a sequence of records in insertion order, and a record's id is its position. Records are never removed.
- The 500 answers for directory failures are not modelled. `login` and `updateProfile` swallow exceptions and never answer; that is not modelled either.
- The clock and `Math.random()` are the parameters `now` (integer milliseconds) and `code` (the drawn integer in [100000, 999999]).
- Request fields that are not strings (numbers, arrays) are not modelled. A field is a string, and "" stands for every falsy value.
- `toLowerCase` is modelled for ASCII letters only. The Unicode case mappings are not modelled.
- JavaScript strings are sequences of UTF-16 code units. The model's characters stand for them, so a pasted character outside the Basic Multilingual Plane is not modelled as two slots.
- React rendering, focus movement, toasts, animation, the `setInterval` scheduling of the countdown and the one-second delay before the post-verification redirect are not modelled. The countdown's tick and the redirect target are.
- The router matches patterns such as `/description/:id` against concrete URLs and ranks them. That matching is not modelled: paths are looked up by their pattern text.
- The card timestamps are integer milliseconds. Parsing the stored date and the `NaN` of an invalid date are not modelled.
- `JobDescription.JobPage.ApplyJob`: when no job is loaded, a successful application sets `isApplied` and then throws a `TypeError`. The error handler then throws again. The model stops at the first throw, so the stored job stays absent.
- The job search reads `title`, `description` and `location` as strings. A job missing one of them would make the filter throw. That is not modelled.
