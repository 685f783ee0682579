# PairShare core, modelled in Dafny

PairShare is an Android app in which two users share an expense list, log
expenses against it and see a running balance of who paid more. Its own logic
is small and sits among calls into a hosted backend (authentication, document
database, file storage, push messaging). This project pulls that logic out as
pure functions over immutable data and proves what it does:

- `models.dfy` (module `Models`): the persisted entities — `ExpenseList` with
  its `sharers` and `sharerInfo`, `ExpenseSummary` (`numExpenses`,
  `sumExpenses`, both starting at zero), `Expense`, `User` — and the identity
  the authentication platform reports (`AuthUser`).
- `expense_list_utils.dfy` (module `ExpenseListUtils`): the balance of one user
  (that user's sum counted positively, every other sharer's sum negatively) and
  the five colour buckets it is shown in.
- `repository.dfy` (module `Repository`): the state transitions inside the
  repository facade — checking the signed-in user's document, creating a list
  for an invited user, adding an expense — over an in-memory `Store`, and the
  list invariant: the summary keys are the sharers and each summary is the count
  and sum of that sharer's expenses.
- `add_expense_list_view_model.dfy` (module `AddExpenseListViewModel`): the
  validation of the "new list" form and the mapping of result codes to what the
  screen shows, composed with the repository call.
- `image_utils.dfy` (module `ImageUtils`): the down-sampling factor chosen
  before a camera image is decoded.

Modelling decisions:

- Money is an exact `real` instead of a `Double`, so sums are exact and the
  thresholds 100 and -100 keep their values.
- The balance loop walks the `sharerInfo` map in the map's iteration order;
  that order is an input (`order`, any enumeration of the keys), and the balance
  is proved not to depend on it.
- The backend is replaced by `Store(users, lists)`. Lists are addressed by
  position. Whatever the backend or the device decides on its own is an input: whether
  a read or query succeeds, the order of query results, the messaging token, the
  server clock, the device clock, and generated file names.
- Incrementing a summary field that does not exist yet starts from zero, as the
  database's increment operation does. So an expense added by a user who is not
  a sharer of the selected list creates a new summary key. The invariant "the
  summary keys equal the sharers" is often stated unconditionally, but the code
  keeps it only while every expense comes from a sharer. The model follows the
  code, and `Repository.AddExpenseKeepsListConsistent` proves both directions.
- `checkNewUser` falls back to the username "unknown" when the account has
  neither a non-empty display name nor an email. It then dereferences the email
  unconditionally, so every account without an email, whatever its display
  name, crashes the callback before anything is written. The model records this as
  the effect `CrashedOnMissingEmail`, and `Repository.NoEmailNoWrite` shows that
  the fallback name is never stored.
- Kotlin's `roundToInt` rounds halves up; on exact integers with a positive
  divisor this is `(2 * d + m) / (2 * m)` with floor division.
- The sample-size loop compares `width * height / (s * s)` with the cap in
  floating point. For `s = 0` the quotient is +Infinity for a positive pixel
  count and NaN or -Infinity otherwise. With exact arithmetic, every case
  equals the integer comparison `width * height > 2 * maxSize² * s²` used here.
  The app computes the guard in 32-bit `Float`, which rounds pixel counts above
  2^24 and the quotient. So for very large images the app can stop one factor
  earlier than the model: the exact pixel count 52,428,801 rounds down to the
  cap boundary at s = 8.

## Model

| member | source | states |
|---|---|---|
| `ExpenseListUtils.DifferenceAlong` | android/app/src/main/java/com/sliebald/pairshare/utils/ExpenseListUtils.kt:23-31 | after walking any duplicate-free prefix of the map's entries, the running difference is the target user's sum (if visited) minus the order-free total of the other visited keys' sums |
| `ExpenseListUtils.GetExpenseDifferenceFor` | android/app/src/main/java/com/sliebald/pairshare/utils/ExpenseListUtils.kt:13-32 | the balance is the user's own `sumExpenses` (zero if not a key) minus the sum of every other key's `sumExpenses`, whatever the iteration order |
| `ExpenseListUtils.BalanceIndependentOfOrder` | android/app/src/main/java/com/sliebald/pairshare/utils/ExpenseListUtils.kt:25-30 | two iteration orders of the same map give the same balance |
| `ExpenseListUtils.BalanceOfNonSharer` | android/app/src/main/java/com/sliebald/pairshare/utils/ExpenseListUtils.kt:25-30 | a user who is not a key gets the negated total of all sums |
| `ExpenseListUtils.TwoSharerBalances` | android/app/src/main/java/com/sliebald/pairshare/utils/ExpenseListUtils.kt:14-31 | with exactly two sharers u and v, balance(u) = sum(u) - sum(v) = -balance(v), and it is positive exactly when u paid more |
| `ExpenseListUtils.TwoSharerExample` | android/app/src/main/java/com/sliebald/pairshare/utils/ExpenseListUtils.kt:14-31 | sharers who paid 30 and 10 get balances 20 and -20 |
| `ExpenseListUtils.GetExpenseDifferenceColor` | android/app/src/main/java/com/sliebald/pairshare/utils/ExpenseListUtils.kt:41-57 | the five buckets partition the line: d >= 100 strong positive, 0 < d < 100 slight positive, -100 < d < 0 slight negative, d <= -100 strong negative, exactly 0 black; each bucket holds exactly its range |
| `ExpenseListUtils.ColorIsSignSymmetric` | android/app/src/main/java/com/sliebald/pairshare/utils/ExpenseListUtils.kt:43-56 | negating the difference mirrors the bucket (positive and negative swap, strength kept, black stays black) |
| `ExpenseListUtils.ColorIsMonotone` | android/app/src/main/java/com/sliebald/pairshare/utils/ExpenseListUtils.kt:43-56 | a larger difference never lands in a more negative bucket |
| `ExpenseListUtils.TwoSharerColorsMirror` | android/app/src/main/java/com/sliebald/pairshare/utils/ExpenseListUtils.kt:22-57 | with two sharers, the two users see mirrored colours |
| `Repository.ToLower` | android/app/src/main/java/com/sliebald/pairshare/data/Repository.kt:146 | lower-casing keeps the length, maps every character through the letter mapping and leaves no upper-case letter |
| `Repository.UserName` | android/app/src/main/java/com/sliebald/pairshare/data/Repository.kt:131-137 | the username is the display name when present and non-empty, else the email when present, else "unknown"; it is empty only for an empty email |
| `Repository.CheckNewUser` | android/app/src/main/java/com/sliebald/pairshare/data/Repository.kt:125-167 | a user document is created exactly when the user is signed in, a token arrived, the email is present, the read succeeded and no document exists; it is rewritten exactly when a document exists whose token is null or differs; otherwise nothing is written; no other user's document ever changes, and no document other than the caller's is added; the no-write outcome is named: no signed-in user, no token, a crash on the missing email, or a failed read, each exactly under its condition in that order |
| `Repository.NewUserDocument` | android/app/src/main/java/com/sliebald/pairshare/data/Repository.kt:143-154 | a created document holds the lower-cased email, the chosen username (the display name or the email, never the fallback), the current token and the server time as both `created` and `modified`, and no other document changes |
| `Repository.ExistingUserKeepsProfile` | android/app/src/main/java/com/sliebald/pairshare/data/Repository.kt:155-163 | for an existing user only the token and the modified time can change, and only when the stored token differed; mail, username and creation time are kept |
| `Repository.CheckedUserHasCurrentToken` | android/app/src/main/java/com/sliebald/pairshare/data/Repository.kt:143-163 | after a check that got a token, an email and a readable document, the stored token is the current one |
| `Repository.CheckNewUserIdempotent` | android/app/src/main/java/com/sliebald/pairshare/data/Repository.kt:150-163 | repeating the check with the same token writes nothing more |
| `Repository.NoEmailNoWrite` | android/app/src/main/java/com/sliebald/pairshare/data/Repository.kt:131-146 | an account without email writes nothing, so together with the created document's name the "unknown" fallback is never stored |
| `Repository.FindUsersByMail` | android/app/src/main/java/com/sliebald/pairshare/data/Repository.kt:218-219 | the query returns exactly the users whose stored mail equals the given mail, and its first result is the first matching user in the backend's order |
| `Repository.InviteMatchIsCaseInsensitive` | android/app/src/main/java/com/sliebald/pairshare/data/Repository.kt:218-219 | a user document written by the check answers an invite exactly when the invite lower-cases to the lower-cased email; the stored mail itself, used as an invite, finds it |
| `Repository.NewExpenseList` | android/app/src/main/java/com/sliebald/pairshare/data/Repository.kt:228-236 | the new list's summary keys are exactly its sharers and every summary is zero |
| `Repository.CreateNewExpenseList` | android/app/src/main/java/com/sliebald/pairshare/data/Repository.kt:207-247 | no user: nothing and no callback; code -1 is reported exactly when a signed-in caller's query failed or matched no user, and then nothing changes; a successful query whose first match is another user reports 0; 0 is reported exactly when one list is added; only codes 0 and -1 occur; users are never changed |
| `Repository.CreatedListShape` | android/app/src/main/java/com/sliebald/pairshare/data/Repository.kt:223-241 | on success the appended list is named as requested, carries the server time as both `created` and `modified`, has sharers [me, invited] in that order, where invited is the query's first result, a different user matching the invite, one zero summary per sharer and no expenses |
| `Repository.SelfInviteIsSilent` | android/app/src/main/java/com/sliebald/pairshare/data/Repository.kt:227-242 | when the invite finds the caller, no list is created and no result is reported |
| `Repository.ImagePaths` | android/app/src/main/java/com/sliebald/pairshare/data/Repository.kt:284-291 | image and thumbnail paths are both set exactly when both bitmaps are given, under images/ and thumbnails/ with the generated names |
| `Repository.AddExpense` | android/app/src/main/java/com/sliebald/pairshare/data/Repository.kt:276-312 | without a user or an existing selected list nothing changes; users and all other lists never change |
| `Repository.AddExpenseEffect` | android/app/src/main/java/com/sliebald/pairshare/data/Repository.kt:279-311 | the caller's count rises by one and sum by the amount; the appended expense is exactly the caller's id and name, the amount, comment, time, the image paths of `ImagePaths` (both set only when both bitmaps are given) and the server time; no other summary, the sharers or the list metadata change |
| `Repository.NewListConsistent` | android/app/src/main/java/com/sliebald/pairshare/data/Repository.kt:227-236 | a freshly created list satisfies the list invariant |
| `Repository.CreateKeepsStoreConsistent` | android/app/src/main/java/com/sliebald/pairshare/data/Repository.kt:223-241 | creating a list keeps every list of the store consistent |
| `Repository.AddExpenseKeepsListConsistent` | android/app/src/main/java/com/sliebald/pairshare/data/Repository.kt:296-311 | adding an expense to a consistent list keeps it consistent if and only if the caller is one of its sharers |
| `Repository.AddExpenseKeepsStoreConsistent` | android/app/src/main/java/com/sliebald/pairshare/data/Repository.kt:296-311 | the store stays consistent when every expense is added by a sharer of the selected list |
| `Repository.TwoSharerBalanceFromExpenses` | android/app/src/main/java/com/sliebald/pairshare/utils/ExpenseListUtils.kt:22-31 | in a consistent two-sharer list the shown balance is what the user paid minus what the other sharer paid, over the stored expenses |
| `AddExpenseListViewModel.CreateExpenseList` | android/app/src/main/java/com/sliebald/pairshare/ui/addExpenseList/AddExpenseListViewModel.kt:37-43 | the request is forwarded unchanged exactly when both inputs are non-empty; an empty name gives the name error (also when the invite is empty), otherwise an empty invite gives the invite error |
| `AddExpenseListViewModel.ReportResult` | android/app/src/main/java/com/sliebald/pairshare/ui/addExpenseList/AddExpenseListViewModel.kt:48-53 | code 0 sets success and keeps the error; any other code posts the missing-user error and never touches success |
| `AddExpenseListViewModel.Submit` | android/app/src/main/java/com/sliebald/pairshare/ui/addExpenseList/AddExpenseListViewModel.kt:37-53 | an invalid form posts the validation message and leaves the store alone; a valid form's store is the repository's result and the screen is updated through the result callback only when the repository fires one; users are never changed |
| `AddExpenseListViewModel.SubmitFromInitialScreen` | android/app/src/main/java/com/sliebald/pairshare/ui/addExpenseList/AddExpenseListViewModel.kt:37-53 | from a fresh screen, success shows exactly when a list was created, success and error never show together, and the missing-user error shows exactly when a valid request got code -1 |
| `AddExpenseListViewModel.SelfInviteShowsNothing` | android/app/src/main/java/com/sliebald/pairshare/data/Repository.kt:227-242 | a valid form that invites the caller leaves both the screen and the store unchanged |
| `ImageUtils.RoundRatio` | android/app/src/main/java/com/sliebald/pairshare/utils/ImageUtils.kt:45-46 | the rounded ratio r satisfies r - 1/2 <= d / maxSize < r + 1/2 (halves round up); it is non-negative for non-negative d and at least 1 for d > maxSize |
| `ImageUtils.RaiseFactor` | android/app/src/main/java/com/sliebald/pairshare/utils/ImageUtils.kt:57-64 | the loop ends at the least factor not below its start at which the pixels per factor² are at most the cap, and at a factor of at least 1 for a positive pixel count |
| `ImageUtils.CalculateInSampleSize` | android/app/src/main/java/com/sliebald/pairshare/utils/ImageUtils.kt:36-67 | 1 when both dimensions fit; otherwise the least factor from min(round(h/maxSize), round(w/maxSize)) upward with width*height <= 2*maxSize²*s²; for positive dimensions the result is at least 1 and satisfies that bound |

## Left out

- Backend SDK calls (document reads, queries, listeners, batch commits, storage uploads, token retrieval, push messages) are replaced by the in-memory `Store` and by inputs; a write to the store always succeeds.
- `getCurrentUser`, `getExpenseListsQuery`, `getExpensesForActiveListQuery`, `getActiveExpenseList` and `updateActiveExpenseList` only build queries or forward snapshots to observable data and hold no logic of their own.
- `uploadImage` is left out: it compresses the bitmap and uploads it, and the model takes the storage path to be the requested path.
- Concurrency: the atomicity of the increment under concurrent writers, and the signed-in user being re-read inside callbacks, are not modelled; each operation is one sequential step.
- A stored user document that fails to deserialise (`checkNewUser` then writes nothing) is not modelled; reads return the stored document.
- A failed list write (`createNewExpenseList` then reports nothing) is not modelled.
- The selected list is a position in the store; the empty selection id, which the database rejects with an exception, is not modelled.
- Nullable fields of `ExpenseList`, `Expense` and `User` are modelled as present, except the user's token and the image paths; a list without `sharerInfo` would make the balance computation throw.
- Timestamps are integers supplied by the caller (server clock and device clock).
- Floating point: money is exact; NaN and infinite amounts, and rounding artefacts of sums, are not modelled.
- `ImageUtils.CalculateInSampleSize`: does not model the 32-bit overflow of `width * height` or of the cap `maxSize * maxSize * 2`. The cap wraps for maxSize >= 32768, which the app's sizes 640 and 128 cannot reach. It also leaves out the float rounding in the ratios, or the 32-bit float rounding of the loop guard. The guard rounds `totalPixels` and the quotient `totalPixels / (s * s)`, so for pixel counts above 2^24 the app's loop can stop one factor earlier than the exact one. The method also requires `maxSize > 0`: a non-positive size would send the float division to infinity or NaN. The only call sites in the app (640 and 128) are in the stale `AddExpenseViewModel.java`, which this model leaves out.
- `Repository.ToLower`: lower-cases ASCII letters only; the platform's locale-dependent Unicode lower-casing is not modelled.
- Bitmap decoding, EXIF rotation and resizing (`getResizedBitmap`, `rotateImageIfRequired`) are platform image APIs.
- Screens, navigation, formatting, preferences storage and the other view models are UI plumbing.
- `User.java` and `AddExpenseViewModel.java` are stale duplicates of the Kotlin classes and are not part of this model.
