# SkillSwap in Dafny

SkillSwap is a marketplace where members register and list the skills they offer and want. They browse other public members, send each other swap requests, answer the requests they receive, and leave feedback. This project models the rules behind that marketplace and proves properties about them. It covers the backend services and the client-side logic of the account and profile pages:

- **Store** (`store.dfy`): the tables as the fields of one `Db` object.
  - The tables are users, skills, the offered and wanted link sets, OTP rows, swap requests and feedback.
  - A row's id is its position in its table, and rows are appended in creation order. So "ordered by `createdAt` descending" is "highest id first".
  - The schema's integrity rules are stated as `Db.Valid()`: unique emails and unique skill names, and every foreign key in range. Every state-changing service method keeps them.
  - The skill find-or-create of registration and profile update lives here. It comes in two versions, as written and as intended (see Findings).
- **AuthService** (`auth_service.dfy`): registration, issuing OTPs, finding the newest OTP, checking an OTP, dispatching on its reason, password reset and login.
  - Registration is one transaction: it either commits every table it writes or changes nothing.
  - The clock is a parameter (`now`, in milliseconds). The value `crypto.randomInt` draws is the `otpValue` parameter, required to lie in its range.
  - Hashing, bcrypt comparison and JWT signing and verification are function parameters.
  - The OTP emails are recorded in a ghost `outbox` rather than sent.
- **SwapRequests** (`swap_requests.dfy`): creating a request, and the receiver's status update. Also the paginated listing: filtered by side and search, newest first, each request shown from the caller's side.
- **UsersService** (`users_service.dfy`): the profile update transaction, and the directory of other public members with their skills and received ratings.
- **FeedbackService** (`feedback_service.dfy`): creating feedback, and listing the feedback a member received.
- **AuthMiddleware** (`auth_middleware.dfy`): the Authorization header split, its two 401 paths, and storing the caller on the request.
  - The header follows the `Bearer <token>` layout of section 2.1 of RFC 6750, except that the scheme word is never checked.
- **ChangePassword**, **VerifyOtp**, **ForgotPassword** (`change_password.dfy`, `verify_otp.dfy`, `forgot_password.dfy`): the three password-reset pages.
  - Each page is a class whose fields are the page's state. Each handler is a method.
  - A page's `fetch` outcome is a parameter: a network error, or a reply with its `ok` flag and body fields.
  - `localStorage` is a `map` field.
- **Signup** (`signup.dfy`): the two-step sign-up form.
  - The tag input refuses repeats. Toggles flip time slots and days on and off.
  - Changing the availability kind or the country resets what depends on it.
  - Step 2 opens only when the step-1 fields pass their rules.
- **ProfileForms** (`profile_form.dfy`): the two profile-editing forms.
  - Both run the same skill-list handlers, so one generic class models them.
  - Each form has its own schema.

Foreign calls are function parameters:

- `hash`: hashing a password.
- `compare`: the bcrypt comparison.
- `sign`, `signReset`, `verify`: JWT signing and verification.
- `contains`: the database's case-insensitive `contains`.
- `parse`: the database enum's reading of a status text.
- `isValidPhoneNumber`: the phone-number library's check.

Where the database client itself rejects a query, its message is a parameter (`clientError`). That happens for a negative `skip`, or a status text that is not an enum value.

## Model

| member | source | states |
|---|---|---|
| Common.Rethrow | backend/src/auth/auth.service.ts:118-124 | a caught error becomes an HTTP error carrying its own message, or the fallback if it has none. It keeps its own status, or gets the fallback status if it has none. |
| Common.RethrowTwice | backend/src/auth/auth.service.ts:177-223 | a second catch around a first one leaves the first one's error unchanged. |
| Common.Trim | frontend/src/app/user/signup.tsx:55 | `trim()` is the slice of the input between its leading and trailing JavaScript white space. The result neither starts nor ends with white space. |
| Common.TrimEmptyIff | frontend/src/app/user/signup.tsx:55 | the trim is empty exactly when the input is all white space. |
| Common.TrimIdempotent | frontend/src/app/user/signup.tsx:55-56 | trimming a trimmed text changes nothing. |
| Common.RemoveAll | frontend/src/app/user/signup.tsx:63 | `filter(t => t !== x)` drops every `x` and is no longer than its input. Its multiset is the input's with the count of `x` set to 0. |
| Common.RemoveAllMembers | frontend/src/app/user/signup.tsx:63 | every value other than `x` is in the result exactly when it is in the input. |
| Common.RemoveAllAppend | frontend/src/app/user/signup.tsx:63 | filtering distributes over concatenation, so it keeps the order of what it keeps. |
| Common.RemoveAllNoDuplicates | frontend/src/app/user/signup.tsx:62-64 | filtering a list without repeats leaves a list without repeats. |
| Common.NewestFirst | backend/src/swap-requests/swap-requests.service.ts:111-115 | the ids of exactly the rows the filter keeps, strictly decreasing (`orderBy: { createdAt: 'desc' }`). |
| Common.ParseNatToString | backend/src/feedback/feedback.service.ts:42-44 | reading back the decimal `toString()` of an id gives the id. |
| Common.NatToStringInjective | backend/src/feedback/feedback.service.ts:42-44 | different ids print as different strings. |
| Common.IntToString | backend/src/auth/auth.service.ts:369 | `toString()` of an integer: the decimal digits, led by '-' exactly when the integer is negative. |
| Common.BigIntOf | backend/src/auth/auth.service.ts:228 | `BigInt(s)` follows the StringToBigInt grammar: surrounding white space is ignored and blank text is 0. Otherwise it reads a signed decimal or an unsigned `0b`/`0o`/`0x` literal, and anything else is a syntax error. |
| Common.BigIntOfIgnoresWhiteSpace | backend/src/auth/auth.service.ts:228 | only the text inside the surrounding white space decides the value. |
| Common.TrimPadded | backend/src/auth/auth.service.ts:228 | `trim` removes exactly the white space around a text that neither starts nor ends with white space. |
| Common.IntegerLiteralOfIntToString | backend/src/auth/auth.service.ts:228 | every integer's `toString()`, negative ones included, reads back as that integer. |
| Common.BigIntOfPadded | backend/src/auth/auth.service.ts:228 | `BigInt` gives back any integer from its `toString()` with any white space around it. |
| Common.BigIntOfNatToString | backend/src/auth/auth.service.ts:228 | the decimal id the server signs reads back as that id. |
| Common.PaddedAndSignedIds | backend/src/auth/auth.service.ts:228 | example: " 7" is 7 and "-1" is -1. |
| Common.HexId | backend/src/auth/auth.service.ts:228 | example: "0x1F" is 31. |
| Common.RejectedIds | backend/src/auth/auth.service.ts:228 | example: "7x" and "-0x1" are syntax errors. |
| Common.Paginate | backend/src/swap-requests/swap-requests.service.ts:113-114 | skip/take gives min(take, n - skip) items, or none past the end, each the item at skip + k. |
| Common.PaginateDecreasing | backend/src/swap-requests/swap-requests.service.ts:113-115 | a page of a newest-first list is newest first. |
| Common.PaginateAt | backend/src/swap-requests/swap-requests.service.ts:113-114 | item p of the list is at offset p - skip of any page that starts at or before p and reaches past it. |
| Common.PageSlot | backend/src/swap-requests/swap-requests.service.ts:94-95 | position p falls on the page starting at (p / size) * size, at offset p % size. |
| Common.CeilDiv | backend/src/swap-requests/swap-requests.service.ts:144 | `Math.ceil(a / b)` is the least q with q·b ≥ a. |
| Common.PageNonEmptyIff | backend/src/swap-requests/swap-requests.service.ts:138-145 | page p of n items has an item exactly when p ≤ totalPages. |
| Store.UserByEmail | backend/src/auth/auth.service.ts:42 | `findUnique` by email finds a user exactly when one has that email. With unique emails, it finds the only one. |
| Store.LinksFor | backend/src/auth/auth.service.ts:78-93 | `createMany` with `skipDuplicates` makes exactly the links (user, id) for the ids of the list. |
| Store.ResolveSkill | backend/src/auth/auth.service.ts:51-53 | an existing name keeps its row and id. An unknown name becomes a new last row. |
| Store.ResolveSkills | backend/src/auth/auth.service.ts:48-57 | one id per name, each naming its entry. The old table is a prefix of the new one. |
| Store.ResolveSkillsAddsOnlyUnknown | backend/src/auth/auth.service.ts:48-57 | the new rows are names of the list that were not skills yet, and skill names stay unique. |
| Store.ResolvedNamesPresent | backend/src/auth/auth.service.ts:48-57 | every listed name is a skill afterwards. |
| Store.ResolveSkillsFindOrCreate | backend/src/auth/auth.service.ts:48-57 | existing names reuse their ids. A name is added exactly when it is listed and unknown, and it is added once. |
| Store.UnknownNames | backend/src/auth/auth.service.ts:49-53 | the creates the concurrent version issues: every listed name not yet a skill, repeats kept. |
| Store.SnapshotId | backend/src/auth/auth.service.ts:49-56 | the id the concurrent version gives a name is a row of that name. |
| Store.ResolveSkillsAsWritten | backend/src/auth/auth.service.ts:48-57 | the concurrent find-or-create fails with a unique violation exactly when a new name repeats in the list. |
| Store.RepeatedNewSkillFails | backend/src/auth/auth.service.ts:49-53 | a new name given twice makes the code as written fail. |
| Store.RepeatedNewSkillCreatedOnce | backend/src/auth/auth.service.ts:48-57 | the intended version creates it once and gives both entries its id. |
| Store.ResolveFreshSkill | backend/src/auth/auth.service.ts:51-53 | a fresh name gets a new row, and a second lookup finds that row. |
| Store.ResolvedTableAppendsUnknown | backend/src/auth/auth.service.ts:48-57 | without a repeated new name, the table grows by exactly the unknown names, in list order. |
| Store.AsWrittenAgreesWithoutRepeats | backend/src/auth/auth.service.ts:48-57 | without a repeated new name, the two versions agree on the table and on the ids. |
| AuthService.RegisterOutcome | backend/src/auth/auth.service.ts:21-125 | with the intended find-or-create, a registration fails exactly when the email is taken, with 409 "User with this email already exists". Otherwise it appends exactly one user, with role "user" and the hashed password. The skill table becomes the find-or-create of the offered list and then of the wanted list. The offered links gain exactly (new user, id) for each id resolved for an offered name, and likewise for the wanted links. Every offered and wanted name is in the new skill table, and every new link points at a skill in range. It appends one OTP row holding the drawn value, with reason `verify_user`, expiring at now + 5 minutes, and builds one verification mail with that code. |
| AuthService.RegisterLinksNameTheLists | backend/src/auth/auth.service.ts:76-93 | after registration, the skills the new member is linked to are named by exactly the names of each list. |
| AuthService.NamesOfNewLinks | backend/src/auth/auth.service.ts:76-93 | linking a member with no links to one id per name links it to exactly the listed names. |
| AuthService.Register | backend/src/auth/auth.service.ts:21-125 | commits the registration outcome as one transaction. On failure it returns the error and changes no table. On success it writes exactly the outcome's tables, appends its mail to the outbox, returns the new id and email, and leaves swaps and feedback alone. It keeps `Db.Valid()`. |
| AuthService.Commit | backend/src/auth/auth.service.ts:40-117 | writes exactly the registration's tables and appends its mail, leaving swaps and feedback alone; tables that keep the integrity rules give a valid store. |
| AuthService.RegisterKeepsValid | backend/src/auth/auth.service.ts:40-107 | adding the user, skills, links and OTP keeps every integrity rule. |
| AuthService.SendOtp | backend/src/auth/auth.service.ts:127-170 | a missing email or reason gives 400. An unknown email gives 400 and no row. Otherwise it appends exactly one OTP row: the user's id and email, the drawn value, the caller's reason, expiring at now + 5 minutes. Mail with that code is requested only for the two known reasons. |
| AuthService.LatestOtpIndex | backend/src/auth/auth.service.ts:349-353 | the newest OTP row for the email: none exactly when no row has that email, and no later row has it. |
| AuthService.GetLatestOtp | backend/src/auth/auth.service.ts:349-360 | 400 "No OTP found for this email." exactly when no row has the email. Otherwise the newest row for it. |
| AuthService.NewerOtpHidesOlder | backend/src/auth/auth.service.ts:349-353 | after a new OTP for an email, lookups find only that one. |
| AuthService.EnsureOtpIsValid | backend/src/auth/auth.service.ts:362-373 | accepted exactly when now ≤ expiry and the input equals the value's `toString()`. An OTP expiring exactly now is accepted. |
| AuthService.AcceptedOtpIsSixDigits | backend/src/auth/auth.service.ts:362-373 | an input accepted for an issued OTP is six digits with no leading zero, and it reads back as the value. |
| AuthService.FreshOtpAccepted | backend/src/auth/auth.service.ts:365 | an OTP checked within its five minutes with its own digits is accepted, and still so at the last millisecond. |
| AuthService.VerifyOtp | backend/src/auth/auth.service.ts:172-224 | only the newest OTP is checked, and it is never deleted. `verify_user` sets the account ACTIVE. `reset_pass` returns a token signed over the user id and changes no row. Any other reason gives 400. Each error has its status and message. |
| AuthService.VerifyResetToken | backend/src/auth/auth.service.ts:387-401 | an empty or rejected token gives 400 "Invalid or expired token.". Otherwise the result is the token's id claim. |
| AuthService.ResetTokenRoundTrip | backend/src/auth/auth.service.ts:374-401 | a reset token made for a user leads back to that user's id. |
| AuthService.ResetPassword | backend/src/auth/auth.service.ts:225-249 | a valid token whose id claim `BigInt` reads as an existing user's id sets exactly that user's password hash. Each failure changes nothing and has its status and message: a bad token gives 400, a claim `BigInt` refuses gives 500 "Cannot convert … to a BigInt", and a negative or unknown id fails on the null `user.id`. |
| AuthService.LoginAsWritten | backend/src/auth/auth.service.ts:251-297 | login as written. An unknown email reads `null.status` (500). INACTIVE gives 401 "Verification needed". No password or a wrong one gives 401 "Invalid credentials". The correct password returns no value. |
| AuthService.Login | backend/src/auth/auth.service.ts:251-297 | the corrected login refuses exactly what the code as written refuses, with the same errors. On success it returns a token signed over the id and role, with the user's id, name and role. |
| AuthService.LoginRefusals | backend/src/auth/auth.service.ts:253-275 | each refusal of login, with its status and message. |
| AuthService.LoginAsWrittenIssuesNoToken | backend/src/auth/auth.service.ts:261-291 | an active user with the right password gets no token from the code as written, and a token from the corrected login. |
| SwapRequests.CreateSwapRequest | backend/src/swap-requests/swap-requests.service.ts:10-83 | a fractional sender skill id fails with 500 "Failed to create swap request". Otherwise a sender who does not offer that skill gets 400, a negative id included. Next, a fractional receiver id or receiver skill id gives 500, and a receiver who does not want the skill gets 400. No failure changes anything. Otherwise exactly one request is appended with the default status, both parties, both skills and the message, and its id is returned. Each check's HttpException reaches the caller unchanged. |
| SwapRequests.BigIntOfNumber | backend/src/swap-requests/swap-requests.service.ts:27-28 | `BigInt` of a number gives its integer exactly when it is whole, and throws otherwise. |
| SwapRequests.BigIntOfNumberExamples | backend/src/swap-requests/swap-requests.service.ts:27-28 | examples: 12 and -3 convert, while 1.5 and -0.5 throw. |
| SwapRequests.Matching | backend/src/swap-requests/swap-requests.service.ts:97-115 | the ids of exactly the requests on the caller's side that match the search (an empty search matches all), newest first. |
| SwapRequests.PageItems | backend/src/swap-requests/swap-requests.service.ts:126-136 | one listed item per id, in order. |
| SwapRequests.ListSwapRequests | backend/src/swap-requests/swap-requests.service.ts:85-150 | a negative skip (a page below 1 with a non-zero size) fails with 500 and the client's message, or the fallback when it has none. Otherwise the page holds the matches from position (pageNo - 1) * pageSize on, at most pageSize of them, each shown from the caller's side. totalItems counts every match, and totalPages is ceil(totalItems / pageSize), undefined for size 0. pageNo, pageSize and sender default to 1, 10 and true. |
| SwapRequests.ListedItemsSelected | backend/src/swap-requests/swap-requests.service.ts:97-136 | every listed item is a selected request shown as `ItemOf` it. |
| SwapRequests.ListedNewestFirst | backend/src/swap-requests/swap-requests.service.ts:110-124 | ids strictly decrease down a page. |
| SwapRequests.ListingIsComplete | backend/src/swap-requests/swap-requests.service.ts:97-124 | every selected request is on page 1 once the page size covers the table. |
| SwapRequests.PageHoldsEveryMatch | backend/src/swap-requests/swap-requests.service.ts:94-124 | for any page size, the match at position p of the newest-first order is item p % size of page p / size + 1. |
| SwapRequests.ListedAt | backend/src/swap-requests/swap-requests.service.ts:94-124 | a match at a position the page covers is listed at its offset from the page's start. |
| SwapRequests.ListedOppositeParty | backend/src/swap-requests/swap-requests.service.ts:126-136 | with `sender`, the caller is the requester and the item shows the responder and the requester's skill as offered. Otherwise the caller is the responder, and the other party and the skills are swapped. |
| SwapRequests.UpdateSwapStatus | backend/src/swap-requests/swap-requests.service.ts:151-192 | a fractional id gives 500 with `BigInt`'s RangeError message. An unknown or negative id gives 404, a caller who is not the responder gets 403, and a status the database refuses gives 500 with the client's message. None of these changes anything. Otherwise only that request's status changes, whatever its current status. |
| UsersService.Patched | backend/src/users/users.service.ts:26-43 | every supplied field replaces the stored one. A non-empty password is stored hashed, and otherwise the stored hash stays. Email, role, status and visibility stay. |
| UsersService.ReplaceLinks | backend/src/users/users.service.ts:59-62 | the member's links become exactly the new ids, and every other member's links stay. |
| UsersService.DistinctNamesDistinctIds | backend/src/users/users.service.ts:46-55 | distinct names resolve to distinct ids. |
| UsersService.RepeatedNameRepeatedId | backend/src/users/users.service.ts:46-55 | a repeated name resolves to a repeated id. |
| UsersService.ResolvedIdsDistinct | backend/src/users/users.service.ts:57-71 | the resolved ids repeat exactly when the names do. |
| UsersService.UpdateSucceedsIff | backend/src/users/users.service.ts:57-71 | both `createMany` calls can succeed exactly when neither skill list repeats a name. |
| UsersService.UpdateOutcome | backend/src/users/users.service.ts:10-82 | an unknown user and a repeated name each fail. Otherwise the row is patched, the skills are resolved find-or-create, and each link kind is replaced only when its list is non-empty. |
| UsersService.UpdateUser | backend/src/users/users.service.ts:10-82 | the transaction commits that outcome and leaves the other tables alone, or changes nothing. |
| UsersService.UpdateKeepsValid | backend/src/users/users.service.ts:24-74 | a successful update keeps every integrity rule. |
| UsersService.ReplacedLinksNameTheList | backend/src/users/users.service.ts:57-63 | after a replacement, the member's linked skill names are exactly the names of the list. |
| UsersService.VisibleIds | backend/src/users/users.service.ts:99-119 | exactly the public members other than the caller that match the name search and share an availability value with the filter, newest first. |
| UsersService.RatingsFor | backend/src/users/users.service.ts:129-135 | no rating exactly when the member received no feedback. Otherwise there is at least one. |
| UsersService.RatingsInRange | backend/src/users/users.service.ts:129-135 | when every rating is 1 to 5, a member's rating sum lies between their count and 5 times it, so the mean lies in 1..5. |
| UsersService.Cards | backend/src/users/users.service.ts:128-151 | one card per listed id, in order. |
| UsersService.CardOf | backend/src/users/users.service.ts:137-150 | a card's id is the member id in decimal. Its name, email, pictures, phone, location and availability are the member's own. Its rating is the member's received ratings. Its skill lists are the names of the skills the member is linked to. |
| UsersService.ListedIds | backend/src/users/users.service.ts:115-119 | the visible ids from position (page - 1) * limit on, at most `limit` of them, newest first. |
| UsersService.GetAllUsers | backend/src/users/users.service.ts:85-159 | a negative skip (a page below 1 with a non-zero limit) fails with 500 and the client's message, or the fallback when it has none. Otherwise one card per listed id, in order, at most `limit`. |
| UsersService.PageHoldsEveryVisible | backend/src/users/users.service.ts:115-150 | for any limit, the visible member at position p of the newest-first order is card p % limit of page p / limit + 1. |
| UsersService.CardAt | backend/src/users/users.service.ts:115-150 | a visible member at a position the page covers is listed at its offset from the page's start. |
| UsersService.ListedUsersVisible | backend/src/users/users.service.ts:99-125 | every card is a visible member's card, and ids decrease down the page. |
| UsersService.ListedUsersNotSelf | backend/src/users/users.service.ts:99-150 | the caller's own card never appears, and a card has a rating exactly when its member received feedback. |
| FeedbackService.Create | backend/src/feedback/feedback.service.ts:10-24 | the row stores the caller as reviewer and the body's reviewee, rating and text, and it is returned with its new id. Any failure gives 500 "Failed to create feedback" and changes nothing. |
| FeedbackService.ReceivedBelow | backend/src/feedback/feedback.service.ts:28-38 | exactly the rows below n the member received, newest first. |
| FeedbackService.Received | backend/src/feedback/feedback.service.ts:28-38 | exactly the rows the member received, newest first, with no pagination. |
| FeedbackService.ReceivedBelowAppend | backend/src/feedback/feedback.service.ts:28-37 | a new row does not change which older rows a member received. |
| FeedbackService.ViewOf | backend/src/feedback/feedback.service.ts:40-45 | a listed row's id is the row id in decimal, and its reviewer is the row's reviewer. |
| FeedbackService.Views | backend/src/feedback/feedback.service.ts:40-45 | one view per id, in order. |
| FeedbackService.GetAllForUser | backend/src/feedback/feedback.service.ts:26-50 | a failed read gives 500 "Failed to fetch feedbacks". Otherwise one view per received row. |
| FeedbackService.ListedFeedbackReceived | backend/src/feedback/feedback.service.ts:28-45 | every listed row was received by the member. Its three ids are the row's in decimal, and rating, text and reviewer pass through. |
| FeedbackService.ListedFeedbackComplete | backend/src/feedback/feedback.service.ts:28-31 | every received row is listed. |
| FeedbackService.ListedFeedbackNewestFirst | backend/src/feedback/feedback.service.ts:37-44 | the listing runs newest first. |
| FeedbackService.ReceivedAfterCreate | backend/src/feedback/feedback.service.ts:12-37 | a created row becomes the newest row its reviewee received. |
| FeedbackService.ViewsAfterCreate | backend/src/feedback/feedback.service.ts:40-45 | a new row leaves the views of older rows unchanged. |
| FeedbackService.FeedbackValidAfterCreate | backend/src/feedback/feedback.service.ts:12-19 | a row whose two ids are users keeps the foreign keys valid. |
| FeedbackService.ListingAfterCreate | backend/src/feedback/feedback.service.ts:10-45 | after a create, the reviewee's listing is the new row followed by the old listing. Other members' listings do not change. |
| AuthMiddleware.Split | backend/src/middlewares/auth.middleware.ts:9 | `split(sep)` gives at least one piece, and no piece holds the separator. |
| AuthMiddleware.JoinSplit | backend/src/middlewares/auth.middleware.ts:9 | joining the pieces of a split gives the text back. |
| AuthMiddleware.SplitJoin | backend/src/middlewares/auth.middleware.ts:9 | splitting a join of separator-free pieces gives the pieces back. |
| AuthMiddleware.SplitFirst | backend/src/middlewares/auth.middleware.ts:9 | the first piece is the text before the first separator, and there are two pieces or more exactly when the separator occurs. |
| AuthMiddleware.HeaderToken | backend/src/middlewares/auth.middleware.ts:9 | a token exists exactly when the header is present and holds a space. |
| AuthMiddleware.TokenAfterFirstSpace | backend/src/middlewares/auth.middleware.ts:9 | when the header holds a space, the token is the text after the first space, up to the next space or the end. |
| AuthMiddleware.SchemeNotChecked | backend/src/middlewares/auth.middleware.ts:9 | for any scheme word, a space, a token and then nothing or a space-led tail, the token is what is read. |
| AuthMiddleware.BearerHeader | backend/src/middlewares/auth.middleware.ts:9 | example: "Bearer abc" gives "abc". |
| AuthMiddleware.DoubleSpaceGivesEmptyToken | backend/src/middlewares/auth.middleware.ts:9-14 | two spaces after the scheme give the empty token, which counts as no token. |
| AuthMiddleware.Use | backend/src/middlewares/auth.middleware.ts:7-30 | a missing or empty token gives 401 "Token not provided". A rejected token gives 401 "Invalid token". Neither touches the request or calls `next`. On success `req.user` is {userId, role} from the claims and `next` is called once. |
| ChangePassword.Passed | frontend/src/app/user/change_password.tsx:36-45 | the number of passed checks lies in 0..5. It is 5 exactly when all pass and 0 exactly when none does. |
| ChangePassword.Label | frontend/src/app/user/change_password.tsx:47-59 | 1..5 map to Very Weak, Weak, Fair, Good and Strong. Every other strength has the empty label. |
| ChangePassword.GetPasswordStrength | frontend/src/app/user/change_password.tsx:33-62 | an empty password scores 0 with no label. Otherwise the score is the number of passed checks among five, and the label is empty exactly at 0. |
| ChangePassword.StrengthMonotone | frontend/src/app/user/change_password.tsx:37-45 | typing more characters never lowers the strength. |
| ChangePassword.AcceptedStrengthMixesKinds | frontend/src/app/user/change_password.tsx:79 | a password strong enough to submit has at least two kinds of character. |
| ChangePassword.WeakChecks | frontend/src/app/user/change_password.tsx:37-45 | example: "abc" passes only the lower-case check. |
| ChangePassword.StrongChecks | frontend/src/app/user/change_password.tsx:37-45 | example: "Password1!" passes all five checks. |
| ChangePassword.StrengthExamples | frontend/src/app/user/change_password.tsx:33-62 | example: "abc" is Very Weak (1) and "Password1!" is Strong (5). |
| ChangePassword.MatchIndicatorsExclusive | frontend/src/app/user/change_password.tsx:65-66 | the two indicators never show together. Once both fields are filled, exactly one shows. |
| ChangePassword.ResetGuard | frontend/src/app/user/change_password.tsx:69-82 | the guards in order: empty field, mismatch, too weak. It passes exactly when the passwords match and the strength is at least 3. |
| ChangePassword.SubmitEnabledIff | frontend/src/app/user/change_password.tsx:279-286 | the button is enabled exactly when nothing loads, no success is shown and the guards pass. |
| ChangePassword.ResetPasswordPage.constructor | frontend/src/app/user/change_password.tsx:22-31 | the page starts with the stored reset token, or "" when there is none. |
| ChangePassword.ResetPasswordPage.SetNewPassword | frontend/src/app/user/change_password.tsx:179 | only the new password changes. |
| ChangePassword.ResetPasswordPage.SetConfirmPassword | frontend/src/app/user/change_password.tsx:240 | only the confirmation changes. |
| ChangePassword.ResetPasswordPage.HandleResetPassword | frontend/src/app/user/change_password.tsx:68-121 | a failed guard sets its error and sends nothing. Otherwise one request is sent. Success removes the stored token and email. A server error shows its message or the fallback, and a network failure its message. Loading ends in every case. |
| VerifyOtp.DigitsOf | frontend/src/app/user/verify_otp.tsx:42 | `replace(/\D/g, "")` keeps only ASCII digits and never lengthens. |
| VerifyOtp.DigitsOfAppend | frontend/src/app/user/verify_otp.tsx:42 | removing non-digits distributes over concatenation, so the digits keep their order. |
| VerifyOtp.DigitsOfDigits | frontend/src/app/user/verify_otp.tsx:42 | a string of digits is kept whole. |
| VerifyOtp.SanitizeOtp | frontend/src/app/user/verify_otp.tsx:40-44 | the result holds only digits: the first min(6, number of digits) digits of the input, in order. |
| VerifyOtp.SanitizeIdempotent | frontend/src/app/user/verify_otp.tsx:42 | sanitising its own output changes nothing. |
| VerifyOtp.SanitizeDropsSeparator | frontend/src/app/user/verify_otp.tsx:42 | example: "123 456" becomes "123456". |
| VerifyOtp.SanitizeCutsToSix | frontend/src/app/user/verify_otp.tsx:42 | example: "1234567" becomes "123456". |
| VerifyOtp.VerifyGuard | frontend/src/app/user/verify_otp.tsx:47-50 | it passes exactly when the code has 6 characters. Otherwise the error is "Please enter a valid 6-digit OTP". |
| VerifyOtp.OtpPage.constructor | frontend/src/app/user/verify_otp.tsx:21-30 | the page starts with the stored email, an empty code and no countdown. |
| VerifyOtp.OtpPage.HandleOtpChange | frontend/src/app/user/verify_otp.tsx:40-44 | the code becomes the sanitised input. The code stays at most six digits. |
| VerifyOtp.OtpPage.HandleVerifyOtp | frontend/src/app/user/verify_otp.tsx:46-84 | without six characters it sets the error and sends nothing. Otherwise it posts the email and code. Success stores the reply's token under "resetToken". Errors show the server's message or the fallback. Loading ends. |
| VerifyOtp.OtpPage.HandleResendOtp | frontend/src/app/user/verify_otp.tsx:86-115 | a successful resend clears the code and sets the countdown to 60, which disables resending. Failures keep the code and the countdown. |
| VerifyOtp.OtpPage.Tick | frontend/src/app/user/verify_otp.tsx:32-38 | the countdown drops by one only while positive. |
| ForgotPassword.ValidEmailHasShape | frontend/src/app/user/forgot_password.tsx:20-23 | an accepted email has no white space and exactly one '@' with text before it. After the '@' comes a '.' with text on both sides. |
| ForgotPassword.ShapedEmailIsValid | frontend/src/app/user/forgot_password.tsx:20-23 | every text of that shape is accepted. |
| ForgotPassword.NoDotRefused | frontend/src/app/user/forgot_password.tsx:21 | example: "a@b" is refused. |
| ForgotPassword.SendGuard | frontend/src/app/user/forgot_password.tsx:25-34 | an empty email gives "Please enter your email address" before any check. Otherwise it passes exactly when the pattern accepts, and fails with "Please enter a valid email address". |
| ForgotPassword.ForgotPasswordPage.SetEmail | frontend/src/app/user/forgot_password.tsx:128 | only the email changes. |
| ForgotPassword.ForgotPasswordPage.HandleSendOtp | frontend/src/app/user/forgot_password.tsx:25-70 | a failed guard sets its error and sends nothing. Otherwise it posts the email. Success shows the reply's message or the default and stores the email under "resetEmail". Failures store nothing. Loading ends. |
| Signup.TagInput.SetInput | frontend/src/app/user/signup.tsx:80 | the typed text becomes the input. |
| Signup.TagInput.HandleKeyDown | frontend/src/app/user/signup.tsx:52-60 | on Enter or space, a non-empty trim that is not yet a tag is appended after the existing tags, and the input is cleared. Anything else changes nothing. No repeat is ever added. |
| Signup.RemoveTag | frontend/src/app/user/signup.tsx:62-64 | every copy of the tag goes and every other tag stays. A list without repeats stays without repeats. |
| Signup.RemoveUndoesAdd | frontend/src/app/user/signup.tsx:55-64 | removing a tag just added gives the list back. |
| Signup.Toggle | frontend/src/app/user/signup.tsx:157-171 | the item's membership flips, and no other item's membership changes. |
| Signup.ToggleOnOff | frontend/src/app/user/signup.tsx:157-163 | toggling an absent item twice restores the list. |
| Signup.ToggleKeepsNoDuplicates | frontend/src/app/user/signup.tsx:157-171 | toggling never creates a repeat. |
| Signup.SignupEmailPassesResetCheck | frontend/src/app/user/signup.tsx:254 | every email the sign-up pattern accepts, the forgot-password pattern accepts too. |
| Signup.ShortTopLevelDomainRefused | frontend/src/app/user/signup.tsx:254 | example: a one-letter top-level domain is refused. |
| Signup.FullNameError | frontend/src/app/user/signup.tsx:223-229 | required, then at least 4 characters. No error exactly when the length is at least 4. |
| Signup.EmailError | frontend/src/app/user/signup.tsx:251-256 | required, then the pattern. No error exactly when the pattern matches. |
| Signup.PhoneError | frontend/src/app/user/signup.tsx:278-284 | required, then the library check. No error exactly when the number is present and valid. |
| Signup.Step2Errors | frontend/src/app/user/signup.tsx:383-503 | no error exactly when: an availability kind is chosen; there is a time slot in "time" mode and a day in "day" mode; there are at least 3 offered skills and at least 1 wanted. |
| Signup.SignupForm.constructor | frontend/src/app/user/signup.tsx:103-116 | the default values, on step 1. |
| Signup.SignupForm.SetPersonalInfo | frontend/src/app/user/signup.tsx:220-291 | only the three step-1 fields change. |
| Signup.SignupForm.SetCountry | frontend/src/app/user/signup.tsx:129-142 | a new country clears the city, and the same country keeps it. |
| Signup.SignupForm.SetAvailability | frontend/src/app/user/signup.tsx:144-148 | a new availability kind clears the time slots and days, and the same kind keeps them. |
| Signup.SignupForm.ToggleTimeSlot | frontend/src/app/user/signup.tsx:157-163 | the slot's membership flips, and nothing else changes. |
| Signup.SignupForm.ToggleDay | frontend/src/app/user/signup.tsx:165-171 | the day's membership flips, and nothing else changes. |
| Signup.SignupForm.SetSkills | frontend/src/app/user/signup.tsx:481-507 | a tag input's `onChange` replaces exactly its own list. |
| Signup.SignupForm.HandleNextStep | frontend/src/app/user/signup.tsx:173-178 | the form moves to step 2 when the name, email and phone all pass their rules, and otherwise stays on its step. The form values are unchanged. |
| Signup.SignupForm.Back | frontend/src/app/user/signup.tsx:540 | back to step 1 with every value kept. |
| ProfileForms.NameIssues | frontend/src/components/profile_form.tsx:29-36 | no issue exactly when the name has 2 to 50 characters. |
| ProfileForms.PublicitySchemaIssues | frontend/src/components/profile_form.tsx:28-40 | no issue exactly when the name has 2 to 50 characters and the profile is "public" or "private". |
| ProfileForms.BioSchemaIssues | frontend/src/components/profile-form.tsx:24-44 | no issue exactly when the name has 2 to 50 characters and a present bio has 4 to 160. An absent bio is never an issue. |
| ProfileForms.DefaultsPass | frontend/src/components/profile_form.tsx:63-71 | example: both forms' default values pass their schemas. |
| ProfileForms.EmptiedBioRefused | frontend/src/components/profile-form.tsx:35-43 | an emptied bio is present and too short. Only an absent bio skips the checks. |
| ProfileForms.RemoveAfterAdd | frontend/src/components/profile_form.tsx:80-101 | removing a skill after adding it removes the earlier copies too. |
| ProfileForms.AddKeepsDuplicates | frontend/src/components/profile_form.tsx:82-85 | adding a skill already listed makes a second copy. |
| ProfileForms.ProfileEditor.constructor | frontend/src/components/profile_form.tsx:45-71 | the form's defaults, the default image and skill lists, and empty inputs. |
| ProfileForms.ProfileEditor.SetNewSkill | frontend/src/components/profile_form.tsx:255-302 | only the chosen input changes. |
| ProfileForms.ProfileEditor.Edit | frontend/src/components/profile_form.tsx:63-71 | only the schema-checked values change. |
| ProfileForms.ProfileEditor.HandleAddSkill | frontend/src/components/profile_form.tsx:80-88 | a non-empty trim is appended to the chosen list, repeats included, and only that input is cleared. A blank input changes nothing. The other list and input never change. The other form runs the same code at profile-form.tsx:84-92. |
| ProfileForms.ProfileEditor.HandleRemoveSkill | frontend/src/components/profile_form.tsx:90-101 | every copy leaves the chosen list, and the other list is untouched (also profile-form.tsx:94-105). |
| ProfileForms.ProfileEditor.HandleDiscard | frontend/src/components/profile_form.tsx:103-113 | the values, image, both lists and both inputs return to their defaults (also profile-form.tsx:107-117). |

## Left out

- AuthService.RegisterOutcome: it resolves skills with the intended find-or-create. As written, a list that repeats a name not yet in the table fails with 500 because of the concurrent creates (see Findings, and Store.ResolveSkillsAsWritten). A repeated existing name succeeds in both, because `createMany` skips duplicate links.
- Email delivery is not modelled: the OAuth2 token, the SMTP transport and the templates. A requested mail is only recorded in the ghost `outbox`.
- Google login and the Google userinfo call are not modelled: they are a network call.
- Hashing, bcrypt and JWT internals are not modelled, including token expiry. They are function parameters.
- Time and randomness are not modelled. `Date.now` is the `now` parameter. The value `crypto.randomInt` draws is the `otpValue` parameter, required to lie in [100000, 999999).
- Controllers, modules, DTO decorators and the database client's connection handling are not modelled. The DTO constraints the services rely on appear as parameter types or `requires` clauses: a feedback rating of 1..5 and integer feedback ids (`@IsInt`). The swap ids are only `@IsNumber`, so they are numbers of either sign, whole or not.
- AuthService.Register: the new row's `status` and `isPublic` are the schema's column defaults, which are not part of this model, so they are parameters.
- AuthService.VerifyOtp: a missing user whose OTP has an unknown reason gets 400 "Invalid OTP reason.". That is so in the code too, because `user.id` is read only inside the two known branches.
- UsersService.GetAllUsers: the controller's `parseInt` of `page` and `limit` is not modelled. Both arrive as integers and `limit` is a `nat`. A negative limit is outside the model: Prisma reads a negative `take` as paging backwards, with a skip of (page - 1) * limit. So is a `NaN` from text that is not a number.
- UsersService.CardOf: the card's `createdAt` timestamp is not modelled. Order is by id.
- FeedbackService.ViewOf: the `createdAt` timestamp that the row spread carries is not modelled. Order is by id.
- UsersService.GetAllUsers: `averageRating` is kept as the sum and count of the ratings. The `toFixed(1)` string of the floating-point mean is not modelled. Skill lists are sets of names, so a card's list order is not modelled.
- UsersService.UpdateUser: the message of the database client's "record not found" and "unique constraint" errors is a fixed constant, so the exact client wording is not modelled.
- UsersService.UpdateUser is modelled with the sequential find-or-create. It fails in the same cases as the concurrent one, because a repeated new name is also a repeated name. When it succeeds the two agree (`Store.AsWrittenAgreesWithoutRepeats`).
- UsersService.VisibleIds: the case-insensitive `contains` is a parameter, because its matching is locale-dependent and done inside the database.
- SwapRequests.CreateSwapRequest: the new request's `status` is the schema's column default, which is not part of this model, so it is a parameter.
- SwapRequests.CreateSwapRequest: ids are JavaScript numbers, modelled as reals. Floating-point rounding is not modelled, so an id beyond 2^53 converts exactly here. `NaN` and the infinities are refused by `@IsNumber` before the service.
- SwapRequests.UpdateSwapStatus: the body is untyped and only the number case of `requestId` is modelled. A string `requestId` goes through `BigInt`'s text parsing, and that case is not modelled. Neither is the controller's 400 for a missing or zero `requestId`. The RangeError's wording is the `rangeError` parameter.
- SwapRequests.ListSwapRequests: `parseInt` of the page fields is not modelled. The query arrives already parsed, and a negative page size is outside the model.
- SwapRequests.ListSwapRequests: `sender` is the service's boolean parameter. Over HTTP only its default reaches the service: the global `ValidationPipe` has no `transform` option and the query field is `@IsBoolean()`, so any `sender` in the query string stays text and is refused with 400. That validation step is not modelled.
- SwapRequests.ListSwapRequests: the `createdAt` and `updatedAt` fields of a listed item are not modelled. Order is by id.
- Strings are sequences of characters, so UTF-16 code-unit lengths are not modelled. This affects the zod, `minLength` and `length` checks on text outside the Basic Multilingual Plane.
- The access token's claims are the `Claims` pair that `verify` returns. A token whose payload lacks `userId` or `role` is not modelled.
- VerifyOtp.OtpPage.HandleVerifyOtp: the page stores `data.token`, but the backend's reset branch returns the token itself as `data`, so the stored value is the text "undefined" (`StoredToken(None)`). The model keeps that, and the reply's token is a field of the modelled response.
- Redirects, `setTimeout`, `window.location` and `alert` are not modelled: they are browser navigation.
- The `localStorage` keys the pages do not use are not modelled.
- The country and city data, the file upload and the phone-number library are not modelled: they are library data and checks. The phone check is a parameter.
- react-hook-form's validation timing is not modelled: rules are stated as functions of the values. Step 1 is gated on them when Next is pressed. Step 2's submit only logs, so its rules are stated but no submit method exists.
- The two profile forms' `onSubmit` only logs and alerts, so it is not modelled.
- The zod message for a bad enum value is approximated, because zod's exact text depends on the received value.

## Findings

| source | as written | input that shows it | evidently intended | confidence | as-written member | corrected member |
|---|---|---|---|---|---|---|
| backend/src/auth/auth.service.ts:273-291 | the statements that build the payload, sign the access token and return it sit after the `throw` of the `else` branch, so they never run; a correct password falls out of the `try` block and `login` returns nothing | an ACTIVE user with a stored hash and a password that bcrypt accepts | sign an access token over the user id and role and return it with the user's id, name and role | high, not executed | AuthService.LoginAsWritten, AuthService.LoginAsWrittenIssuesNoToken | AuthService.Login |
| backend/src/auth/auth.service.ts:48-57 | `Promise.all` over the names issues every `findUnique` before any `create`, so a name missing from the table and listed twice is created twice, and the second create breaks the unique skill name; the transaction then fails with 500 | register with `offeredSkills = ["Rust", "Rust"]` while no skill "Rust" exists | find-or-create each name once, giving every entry of the same name the same id | medium, not executed | Store.ResolveSkillsAsWritten, Store.RepeatedNewSkillFails | Store.ResolveSkills, Store.RepeatedNewSkillCreatedOnce |
