# filmssy core, modelled in Dafny

This project models the decision logic of the filmssy streaming service's
backend and shared package:

- the login lockout of a user account: failed-attempt counting, the two-hour lock and its expiry;
- the catalogue entry's availability window, streaming-URL lookup, slug generation and the pre-save hook that regenerates the slug;
- the shared content vocabulary: the content type, status, video quality and age-rating enums, and the video-upload schema;
- the shared helpers `formatDuration`, `slugify`, `isValidEmail`, `isValidPassword`, `calculateWatchPercentage`, `getVideoQualityLabel` and `getAgeRatingColor`;
- the login, registration, subscription, payment-method and coupon field validators;
- the error middleware's classification of thrown errors into an HTTP status and JSON body, the 404 body and `createError`.

Everything is pure. Clocks are an explicit `now: nat` parameter in
milliseconds, and database updates become functions from one account
snapshot to the next. JavaScript semantics are written out where they
matter:

- truthiness: a `Date` is always truthy, while `''` and `0` are falsy;
- `.length` counts UTF-16 code units (`Text.Utf16Length`);
- the `\s` class is the full ECMAScript whitespace set;
- `toLowerCase` maps U+0130 and U+212A to ASCII letters;
- a lookup in an object literal also finds the members inherited from `Object.prototype`.

Modules:

| file | module | what it holds |
|---|---|---|
| Wrappers.dfy | Wrappers | `Option` |
| Text.dfy | Text | JavaScript character classes, `toLowerCase`, `trim`, UTF-16 length, decimal rendering |
| Slugs.dfy | Slugs | the slug alphabet, the `SLUG` pattern, regex-replace building blocks (filter, run collapse, dash strip) |
| Lockout.dfy | Lockout | the account lockout state machine |
| ContentTypes.dfy | ContentTypes | the enums and the upload schema |
| ContentSlugs.dfy | ContentSlugs | `generateSlug` and splitting a slug back apart |
| ContentModel.dfy | ContentModel | availability, streaming URL, pre-save hook |
| CommonUtils.dfy | CommonUtils | the shared helpers |
| AuthValidation.dfy | AuthValidation | login and registration validators |
| SubscriptionValidation.dfy | SubscriptionValidation | subscription enums and validators |
| ErrorHandler.dfy | ErrorHandler | error classification, 404 body, `createError` |

Notes on the code:

- A lock expires only strictly after `lockUntil`, because the expiry test is `<`. At the instant `lockUntil == now` the account is neither locked nor expired (`Lockout.BoundaryInstant`).
- The lock guard in `incLoginAttempts` reads `this.isLocked`, which nothing defines on the document. `Lockout.IncLoginAttempts` reads that guard as `isLockedCheck()`, which the surrounding comment describes. The transition as written, with the guard always true, is `Lockout.IncLoginAttemptsAsWritten` (see "## Findings").
- Content availability checks only status, visibility and the publish/expiry window. The code has no subscription, plan or geographic rule.
- `getStreamingUrl` is an exact match on quality with no fallback along the quality ladder.

## Model

| member | source | states |
|---|---|---|
| Lockout.IsLocked | backend/src/models/User.ts:258-260 | Locked means a lock time is stored, has not expired, and is not exactly `now`: locked, expired and "lock time equals now" are the three states of a stored lock. |
| Lockout.IncLoginAttemptsAsWritten | backend/src/models/User.ts:231-248 | The transition with the `!this.isLocked` guard always true. It agrees with `IncLoginAttempts` on every account that is not locked and always counts alike. From the fifth failure on, it re-sets the lock to two hours after `now` even while locked. |
| Lockout.AsWrittenExtensionExample | backend/src/models/User.ts:243 | An account with 5 failures, locked until `1000 + 2h`, fails at instant 1001. As written it becomes locked until `1001 + 2h`. With the guarded transition the lock stays at `1000 + 2h`. |
| Lockout.IncLoginAttempts | backend/src/models/User.ts:231-248 | After an expired lock, the count restarts at 1 and the lock is cleared. Otherwise the count goes up by exactly one. A current lock is kept unchanged. A new lock is set only at the fifth or later failure of an unlocked account, and lasts exactly two hours from `now`. |
| Lockout.ResetLoginAttempts | backend/src/models/User.ts:251-255 | Both fields are cleared, and the account is unlocked at every instant. |
| Lockout.ExpiryAndLockPartition | backend/src/models/User.ts:233-260 | An account is never both locked and expired. With a lock time present, exactly one of locked, expired or "lock time equals now" holds. Without one, neither holds. |
| Lockout.FailureStartsLockIff | backend/src/models/User.ts:243-245 | A failure introduces a new lock time if and only if the account is not locked, its lock is not expired, and the incremented count reaches 5. |
| Lockout.NoExtensionWhileLocked | backend/src/models/User.ts:240-247 | A failure while locked increments the count and leaves the lock time unchanged. |
| Lockout.ExpiredLockRestartsAtOne | backend/src/models/User.ts:232-238 | A failure after the lock time has passed yields count 1, no lock and an unlocked account, whatever the prior count. |
| Lockout.BoundaryInstant | backend/src/models/User.ts:231-260 | At `lockUntil == now` the account is neither locked nor expired. A failure increments the count, and sets a fresh two-hour lock exactly when the count reaches 5. |
| Lockout.FewFailuresNeverLock | backend/src/models/User.ts:243 | From an unlocked account with fewer than 4 attempts, a failure sets no new lock. |
| Lockout.FifthFailureLocks | backend/src/models/User.ts:243-247 | The fifth failure locks for two hours. A sixth failure during the lock counts but does not extend it. |
| Lockout.StepKeepsSafe | backend/src/models/User.ts:231-255 | One failure or success keeps the safety invariant: a stored lock comes with at least five counted failures, and ends at most two hours after the latest failure instant. |
| Lockout.RunKeepsSafe | backend/src/models/User.ts:231-255 | Any chronological run of failures and successes keeps that invariant. |
| Lockout.ReachableIsSafe | backend/src/models/User.ts:231-255 | Every account reached from a fresh one by a chronological run is safe. |
| Lockout.FiveFailuresLockFresh | backend/src/models/User.ts:231-248 | Five failures at one instant lock a fresh account until two hours later, with count 5. |
| Lockout.SuccessRestoresFresh | backend/src/models/User.ts:251-255 | After a successful login, the account behaves like a fresh one on every later run. |
| ContentModel.IsAvailableForUser | backend/src/models/Content.ts:218-241 | Available if and only if the entry is published, public, its publish date (if any) is not after `now`, and its expiry date (if any) is not before `now`. |
| ContentModel.HiddenNeverAvailable | backend/src/models/Content.ts:220-227 | An entry that is not published, or not public, is unavailable at every instant and for every user. |
| ContentModel.WindowBoundaries | backend/src/models/Content.ts:230-237 | A future publish date or a past expiry date blocks availability. A publish or expiry date equal to `now` does not block. |
| ContentModel.AvailabilityIgnoresEntitlement | backend/src/models/Content.ts:218-240 | Changing the user or any of the subscription, plan and geographic settings never changes availability. |
| ContentModel.AvailabilityIsInterval | backend/src/models/Content.ts:229-237 | An entry available at two instants is available at every instant between them. |
| ContentModel.FirstWithQuality | backend/src/models/Content.ts:245 | Returns the index of the first file with the wanted quality, or none exactly when no file has it. |
| ContentModel.GetStreamingUrl | backend/src/models/Content.ts:244-246 | A URL is returned if and only if some file has the requested quality (HD when omitted), and it is the URL of the first such file. |
| ContentModel.DefaultQualityIsHD | backend/src/models/Content.ts:244 | Omitting the quality is the same as asking for 720p. |
| ContentModel.FirstOfQualityKept | backend/src/models/Content.ts:245 | The first match is the head of the files of that quality, and there is none exactly when that list is empty. |
| ContentModel.OtherQualitiesIgnored | backend/src/models/Content.ts:244-246 | Files of other qualities never affect the result: there is no fallback. |
| ContentModel.PreSave | backend/src/models/Content.ts:198-203 | Only the slug can change. When the slug is empty or the title was modified, the new slug splits into the title's base and `now`. Otherwise the entry is unchanged. |
| ContentSlugs.BaseSlug | backend/src/models/Content.ts:207-212 | The base slug contains only `a-z`, `0-9` and `-`, and never two dashes in a row. |
| ContentSlugs.BaseSlugKeepsSlugs | backend/src/models/Content.ts:207-212 | A title that is already a well-formed slug is its own base. |
| ContentSlugs.GenerateSlug | backend/src/models/Content.ts:206-215 | The timestamp adds no dash, so the last dash of the slug is the one that directly follows the title's base. |
| ContentSlugs.GenerateSlugChars | backend/src/models/Content.ts:206-215 | Every character of a generated slug is `a-z`, `0-9` or `-`. |
| ContentSlugs.GenerateSlugRoundTrip | backend/src/models/Content.ts:214 | The slug is the base, a dash and the decimal instant: splitting at its last dash gives back exactly the title's base and `now`. |
| ContentSlugs.EmptyTitleSlugBreaksPattern | backend/src/models/Content.ts:207-214 | An empty title yields `-` followed by the instant, which does not match the `SLUG` pattern. |
| ContentTypes.ParseContentType | common/src/types/content.ts:4-9 | The parser accepts exactly the four content-type values and inverts the value mapping. |
| ContentTypes.ParseStatus | common/src/types/content.ts:11-16 | The parser accepts exactly the four status values and inverts the value mapping. |
| ContentTypes.StatusValuesExact | common/src/types/content.ts:11-16 | Every status round-trips, and exactly draft, published, archived and coming_soon parse. |
| ContentTypes.ParseQuality | common/src/types/content.ts:18-23 | The parser accepts exactly the four quality values and inverts the value mapping. |
| ContentTypes.QualityLadderMatchesConstant | common/src/constants/index.ts:29 | The quality enum, ordered by rank, is exactly `VIDEO_QUALITIES`: 480p, 720p, 1080p, 2160p. |
| ContentTypes.ParseAgeRating | common/src/types/content.ts:25-37 | The parser accepts exactly the eleven age-rating values and inverts the value mapping. |
| ContentTypes.FailedAmong | common/src/types/content.ts:40-52 | An issue is reported if and only if it is among the candidates and its constraint fails. |
| ContentTypes.ValidateUpload | common/src/types/content.ts:40-52 | An issue is reported if and only if its constraint fails. No issue is reported exactly when every field meets the schema. |
| ContentTypes.IssueMessage | common/src/types/content.ts:41-49 | Every length or range constraint carries a non-empty message of its own. Only the two native-enum checks carry none. |
| ContentTypes.IssueMessagesDistinct | common/src/types/content.ts:41-49 | No two constraints share a message, so the message identifies the failed field. |
| ContentTypes.UploadRejections | common/src/types/content.ts:41-49 | Each of these is rejected with its own issue: an empty title, a description under 10 code units, no genre, a duration under 1, and a language or country under 2 code units. |
| ContentTypes.OptionalIdsIgnored | common/src/types/content.ts:50-51 | The optional TMDB and IMDB ids never change the outcome. |
| ContentTypes.EnumValuesParse | common/src/types/content.ts:43-46 | The native-enum checks accept exactly the enum value lists. |
| CommonUtils.FormatDuration | common/src/index.ts:18-27 | The output consists of digits and colons only. |
| CommonUtils.ShortDurationFields | common/src/index.ts:19-26 | Under an hour, the output is `M:SS`: a decimal minutes field and a two-digit seconds field under 60, which recombine to the input. |
| CommonUtils.LongDurationFields | common/src/index.ts:19-24 | From an hour on, the output is `H:MM:SS` with a non-zero hour and two-digit minute and second fields each under 60, which recombine to the input. |
| CommonUtils.DurationRoundTrip | common/src/index.ts:18-27 | Parsing the formatted duration as hours, minutes and seconds gives back the number of seconds. |
| CommonUtils.Slugify | common/src/index.ts:37-44 | The output uses only `a-z`, `0-9` and `-`, has no leading or trailing dash, and no two dashes in a row. |
| CommonUtils.SlugifyKeepsSlugs | common/src/index.ts:37-44 | A string already of slug shape is left unchanged. |
| CommonUtils.SlugifyIdempotent | common/src/index.ts:37-44 | Slugifying twice is the same as slugifying once. |
| CommonUtils.SlugifyMatchesPattern | common/src/index.ts:37-44 | The output matches `^[a-z0-9]+(?:-[a-z0-9]+)*$` exactly when it is non-empty. |
| Slugs.SlugPatternIff | common/src/constants/index.ts:210 | A string matches the `SLUG` pattern if and only if it is non-empty, of slug characters, with no leading, trailing or doubled dash. |
| CommonUtils.IsValidEmail | common/src/index.ts:80-83 | True if and only if the string is non-whitespace, non-`@` characters around a single `@`, with a `.` in the domain part that has at least one character on each side. |
| CommonUtils.AcceptedEmailShape | common/src/index.ts:81 | An accepted address has exactly one `@`, no whitespace, and a dot strictly inside its domain. |
| CommonUtils.IsValidPassword | common/src/index.ts:85-88 | True if and only if the length is at least 8, every character is in `[A-Za-z0-9@$!%*?&]`, and there is a lower-case letter, an upper-case letter, a digit and a special character. |
| CommonUtils.CalculateWatchPercentage | common/src/index.ts:90-93 | 0 for a zero total. Never more than 100. Exactly 100 once watched reaches the total. Otherwise the percentage is rounded half up. |
| CommonUtils.QualityLabelLeaksPrototype | common/src/index.ts:95-103 | As written, `getVideoQualityLabel("toString")` returns the inherited `toString` function, not a string. |
| CommonUtils.QualityLabel | common/src/index.ts:95-103 | Each of the four quality values maps to its label. Any other input is returned unchanged. The as-written function agrees on every key that is not an `Object.prototype` member. |
| CommonUtils.AgeRatingColorLeaksPrototype | common/src/index.ts:105-120 | As written, `getAgeRatingColor("valueOf")` returns the inherited `valueOf` function, not a colour. |
| CommonUtils.AgeRatingColor | common/src/index.ts:105-120 | Each of the eleven ratings maps to its colour, and any other input maps to `#6b7280`. The result is always a 7-character `#` colour. The as-written function agrees on every key that is not an `Object.prototype` member. |
| AuthValidation.EmailField | common/src/types/auth.ts:9-26 | The `email` rule, written identically in the login and registration schemas. It passes if and only if the value matches the e-mail pattern, and otherwise fails with "Invalid email format". |
| AuthValidation.PasswordField | common/src/types/auth.ts:15-30 | The `password` rule, written identically in both schemas. It passes if and only if the length is at least 8 code units, and otherwise fails with the length message. |
| AuthValidation.FirstNameField | common/src/types/auth.ts:31-34 | Passes if and only if the length is at least 2 code units. Otherwise fails with the first-name message. |
| AuthValidation.LastNameField | common/src/types/auth.ts:35-38 | Passes if and only if the length is at least 2 code units. Otherwise fails with the last-name message. |
| AuthValidation.NameLengthCountsCodeUnits | common/src/types/auth.ts:32-36 | One character outside the Basic Multilingual Plane meets the two-character minimum. One ASCII letter does not. |
| AuthValidation.AcceptedEmailFieldShape | common/src/types/auth.ts:11 | An accepted e-mail has exactly one `@`, no whitespace, and a dot strictly inside its domain. |
| AuthValidation.PasswordRuleWeakerThanPattern | common/src/types/auth.ts:15-18 | Every password `isValidPassword` accepts passes the form, but `aaaaaaaa` passes the form while the helper rejects it: there is no complexity check. |
| AuthValidation.PasswordLengthCountsCodeUnits | common/src/types/auth.ts:16 | Any eight characters pass, and so do four characters outside the Basic Multilingual Plane. |
| SubscriptionValidation.ParseSubscriptionStatus | common/src/types/subscription.ts:14-21 | The parser accepts exactly the six status values and inverts the value mapping. |
| SubscriptionValidation.ParsePaymentMethod | common/src/types/subscription.ts:31-37 | The parser accepts exactly the five payment-method values and inverts the value mapping. |
| SubscriptionValidation.PlanId | common/src/types/subscription.ts:145-148 | Passes if and only if the value is non-empty. |
| SubscriptionValidation.Currency | common/src/types/subscription.ts:149-152 | Passes if and only if the value is exactly 3 code units long. |
| SubscriptionValidation.SubscriptionCouponCode | common/src/types/subscription.ts:153-156 | Never fails, present or not. |
| SubscriptionValidation.PaymentMethodField | common/src/types/subscription.ts:159-166 | Passes if and only if the value is the string value of one of the five `PaymentMethod` members. |
| SubscriptionValidation.CouponCode | common/src/types/subscription.ts:169-172 | Passes if and only if the value is non-empty. |
| SubscriptionValidation.RequiredMeansNonEmpty | common/src/types/subscription.ts:145-176 | The plan-id and coupon-code checks accept exactly the non-empty strings. |
| SubscriptionValidation.CurrencyCountsCodeUnits | common/src/types/subscription.ts:150 | `USD` passes. So does one letter followed by a character outside the Basic Multilingual Plane, while three such characters fail. |
| SubscriptionValidation.PaymentMethodFieldAcceptsEnum | common/src/types/subscription.ts:159-166 | Every payment method's value passes, and every passing value is some payment method's value. |
| ErrorHandler.OwnStatus | backend/src/middleware/errorHandler.ts:18 | The error's own status when present and non-zero. 500 when it is absent or 0. Never 0. |
| ErrorHandler.OwnMessage | backend/src/middleware/errorHandler.ts:19 | The error's own message when non-empty. "Internal Server Error" when it is empty. Never empty. |
| ErrorHandler.OwnCode | backend/src/middleware/errorHandler.ts:20 | The error's own code when truthy. The string `INTERNAL_ERROR` when it is absent, empty or 0. Always truthy. |
| ErrorHandler.Handle | backend/src/middleware/errorHandler.ts:18-61 | The body never reports success. The status is never 0 and the message never empty. A truthy code is always included. The request id is included exactly when the header is a non-empty string. In production a 500 always says "Something went wrong". |
| ErrorHandler.NamedClassesOverride | backend/src/middleware/errorHandler.ts:32-48 | `ValidationError`, `UnauthorizedError`/`JsonWebTokenError`, `CastError` and a `MongoError` with code 11000 give 400, 401, 400 and 409 with their fixed messages and codes, whatever status and code the error carried. |
| ErrorHandler.UnrecognisedKeepsOwnFields | backend/src/middleware/errorHandler.ts:18-53 | Any other error, including a `MongoError` with another code, keeps its defaulted status and code. Its message is kept unless production hides a 500. |
| ErrorHandler.NamedClassesNeverInternal | backend/src/middleware/errorHandler.ts:32-53 | A recognised error never yields 500, so the environment never changes its body. |
| ErrorHandler.EnvironmentOnlyMasksInternalMessage | backend/src/middleware/errorHandler.ts:51-53 | Status, code and request id do not depend on the environment. The message differs between environments only for status 500. |
| ErrorHandler.NotFound | backend/src/middleware/errorHandler.ts:66-74 | A 404 body reading "Resource not found", with no code and no request id. |
| ErrorHandler.NotFoundDistinctFromHandled | backend/src/middleware/errorHandler.ts:55-74 | No handled error's body equals the 404 body, since every handled body carries a code. |
| ErrorHandler.CreateError | backend/src/middleware/errorHandler.ts:76-86 | A plain `Error` with the given message, the given status (500 when omitted), the given code, and `isOperational` set. |
| ErrorHandler.HandleCreatedError | backend/src/middleware/errorHandler.ts:76-86 | Handling a created error gives back its status (500 when omitted or 0) and its code (`INTERNAL_ERROR` when omitted or empty). Its message comes back when non-empty, unless production hides a 500. |

## Left out

- Mongoose schema declarations, indexes and persistence (`updateOne`, `save`), and the atomicity of concurrent updates. Each transition is a pure function of one snapshot.
- The source reads the clock up to three times per call. The model reads it once, as the single `now` parameter.
- Password hashing and `comparePassword`: hashing is disabled and the comparison is a placeholder.
- The `averageRating` virtual: a floating-point mean.
- Device sessions, subscription/plan/geographic entitlement, quality fallback and subtitle/audio track selection. The code does not implement any of them.
- `formatCurrency`, `formatFileSize`, `debounce`, `throttle` and `generateRandomString`. They depend on `Intl`, floating-point logarithms, timers and randomness.
- Logging, the response timestamp, `res.status().json()` and the other Express, database, request-logging and UI plumbing.
- CalculateWatchPercentage: takes natural numbers and rounds the exact rational half up. The source's floating-point division and `Math.round` can differ at .5 boundaries, so only the bounds and the rounding band are claimed. JavaScript numbers are doubles, so the inputs are exact only below 2^53, and even there the quotient `watched / total` is rounded before it is multiplied by 100.
- FormatDuration: takes natural seconds only. Negative or fractional seconds, `NaN` and `Infinity` are not modelled. JavaScript numbers are doubles, and `toString` switches to exponent form from 1e21, so the digit output and DurationRoundTrip hold for the source only below 2^53 seconds.
- Decimal: renders every natural number in plain digits. JavaScript's `String(n)` agrees only below 1e21, and a number is exact only below 2^53. GenerateSlug and GenerateSlugRoundTrip therefore describe the source only for `Date.now()` values in that range, which covers every real clock reading.
- ValidateUpload: the `releaseDate` string-to-`Date` transform is not modelled. The text of zod's own native-enum messages is not modelled either, only which issue is raised.
- IsAvailableForUser: the visibility subdocument is assumed present. A missing `visibilitySettings` would make the source throw.
- BaseSlug: the schema's `trim` option on `title` is not applied before `generateSlug`. The model starts from the stored title as given.
- Handle: the `x-request-id` header is modelled as absent or one string. A repeated header (a string array) is not modelled. A `NaN` status is not modelled.
- PaymentMethodField, PlanId, Currency and CouponCode: only string inputs are modelled. A runtime `undefined` or non-string value is not.
- Non-ASCII case mapping in `toLowerCase`: only the two code points whose lower case contains ASCII letters are mapped. The later filters look only at ASCII classes, so the rest cannot change a slug.

## Findings

| source | as written | input that shows it | evidently intended | confidence | as-written member | corrected member |
|---|---|---|---|---|---|---|
| backend/src/models/User.ts:243 | the guard reads `this.isLocked`, which nothing defines on the document, so `!this.isLocked` is always true | an account with 5 failures locked until `t + 2h` that fails again at `t + 1` is re-locked until `t + 1 + 2h` | a failure during a current lock leaves the lock time alone, as the comment "and it's not locked" says | medium; not executed | Lockout.IncLoginAttemptsAsWritten (shown by Lockout.AsWrittenExtensionExample) | Lockout.IncLoginAttempts |
| common/src/index.ts:95-103 | `qualityMap[quality] \|\| quality` also finds members inherited from `Object.prototype` | `getVideoQualityLabel("toString")` returns a function, not a string | unknown qualities are returned unchanged | high; not executed | CommonUtils.QualityLabelAsWritten (shown by CommonUtils.QualityLabelLeaksPrototype) | CommonUtils.QualityLabel |
| common/src/index.ts:105-120 | `colorMap[rating] \|\| '#6b7280'` also finds members inherited from `Object.prototype` | `getAgeRatingColor("valueOf")` returns a function, not a colour | unknown ratings map to `#6b7280` | high; not executed | CommonUtils.AgeRatingColorAsWritten (shown by CommonUtils.AgeRatingColorLeaksPrototype) | CommonUtils.AgeRatingColor |
