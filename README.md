# Contact endpoint of the Fahicart website, modelled in Dafny

The website's only server logic is the POST handler behind its contact form
(`app/api/contact/route.ts`). The handler works in four steps:

1. It resolves a client identity from the origin headers.
2. It charges a per-identity rate limiter. The limiter is an in-memory map that allows 5 submissions per one-hour window.
3. It validates the four form fields.
4. It checks that the mail credentials are configured, then hands one message to an SMTP relay.

This project models those steps. It then proves:

- the limiter's per-window cap;
- the order of the validation rules;
- that the email check matches the regular expression;
- which response each path gives and what state it leaves.

Modules, one per concern of the route file:

- `Wrappers` (`wrappers.dfy`): `Option` and `Result`.
- `RateLimit` (`rate_limit.dfy`): the map entries, the pure step function `Step`, the `RateLimiter` class whose `Check` method updates its `entries` map in place, and lemmas about sequences of checks (`Run`).
- `Validation` (`validation.dfy`): ECMAScript's `\s`, a structural email check proved equal to a literal reading of `^[^\s@]+@[^\s@]+\.[^\s@]+$`, the ordered validation chain and its error messages.
- `Mail` (`mail.dfy`): the subject line, the `\n` to `<br>` substitution in the HTML rendering, the plain-text rendering, and the assembled message.
- `ContactRoute` (`contact_route.dfy`): identity resolution, the credential gate, the fixed responses, the pure specification `Handle` and the imperative `Post` method over a shared `RateLimiter`.

Ambient inputs are parameters:

- `now` stands for `Date.now()`.
- `Env` holds the three `process.env` values.
- `Request.body == None` stands for a body that `req.json()` cannot parse, or that cannot be destructured.
- The relay is a total function `delivers: Mail -> bool`. It says whether `sendMail` succeeded for the message it was given.

`Post` returns the messages it handed over as a sequence, so "exactly one dispatch" can be stated as a length.

Two points of the handler's timing:

- The limiter is charged before the body is parsed (lines 31-36), so a body that does not parse still uses up quota and gets the generic 500.
- The window is fixed, not rolling. It opens at the first call and lasts until `resetTime` inclusive (`now > resetTime` replaces the entry).

## Model

| member | source | states |
|---|---|---|
| RateLimit.RateLimiter.constructor | app/api/contact/route.ts:5 | the process starts with an empty map, which meets the invariant that every count lies in [1,5] |
| RateLimit.RateLimiter.Check | app/api/contact/route.ts:7-23 | a missing or expired entry (`now > resetTime`) is replaced by `{count: 1, resetTime: now + 3600000}` and the call is allowed; a live entry with count >= 5 rejects and the map is unchanged; otherwise the count rises by exactly 1, the reset time is kept and the call is allowed; the counts stay in [1,5] |
| RateLimit.StepFrame | app/api/contact/route.ts:9-22 | a check leaves an entry for its identity and changes no other identity's entry |
| RateLimit.StepKeepsCountsInRange | app/api/contact/route.ts:11-22 | every stored count stays in [1,5] after any check |
| RateLimit.WindowCap | app/api/contact/route.ts:11-22 | from an entry with count c, any sequence of calls is allowed at most 5 - c more times for that identity up to its reset time, whatever other identities do in between |
| RateLimit.FreshWindowCap | app/api/contact/route.ts:11-22 | the call that opens a window plus all later calls by the same identity up to the window's end are allowed at most 5 times in total |
| RateLimit.WindowVerdicts | app/api/contact/route.ts:16-22 | calls by one identity inside its window are allowed exactly for the first 5 - c calls and rejected from then on |
| RateLimit.SixthCallRejected | app/api/contact/route.ts:11-22 | a call that opens a fresh window, followed by five more calls before the window ends, gives verdicts allowed x5 then rejected |
| Validation.EmailCheckMatchesPattern | app/api/contact/route.ts:44 | the structural email check holds exactly when the address splits into a non-empty `[^\s@]` run, '@', a non-empty run, '.', and a non-empty run |
| Validation.ValidEmailHasOneAt | app/api/contact/route.ts:44 | an accepted address has exactly one '@' |
| Validation.ValidEmailHasNoWhitespace | app/api/contact/route.ts:44 | an accepted address has no `\s` character at any position |
| Validation.ShortAddressAccepted | app/api/contact/route.ts:44 | "a@b.c" is accepted |
| Validation.DotlessAddressRejected | app/api/contact/route.ts:44 | "a@b" is rejected |
| Validation.AtlessAddressRejected | app/api/contact/route.ts:44 | "not-an-email" is rejected |
| Validation.Validate | app/api/contact/route.ts:40-58 | success only when all fields are present and every rule holds, and then the submission holds the raw field values, unnormalised |
| Validation.FirstFailureWins | app/api/contact/route.ts:40-58 | the error reported is e exactly when rule e fails and every earlier rule (presence, email, name, phone, message) holds |
| Validation.ValidateSucceedsIff | app/api/contact/route.ts:40-58 | validation succeeds exactly when every rule holds |
| Validation.MissingFieldWins | app/api/contact/route.ts:40-42 | any absent or empty field gives "All fields are required", whatever the other fields hold |
| Validation.ErrorMessagesDistinct | app/api/contact/route.ts:41-57 | each failed rule has its own message |
| Validation.LengthBoundaries | app/api/contact/route.ts:48-58 | with a valid email and phone, name lengths 1 and 101 fail, 2 and 100 pass; message lengths 9 and 1001 fail, 10 and 1000 pass |
| Mail.SubjectEmbedsName | app/api/contact/route.ts:82 | the subject is the fixed prefix followed by the whole name |
| Mail.SubjectInjective | app/api/contact/route.ts:82 | different names give different subjects |
| Mail.ReplaceNewlines | app/api/contact/route.ts:118 | the HTML message has no '\n' left, and it is longer by 3 characters for every '\n' in the message |
| Mail.RestoreAfterReplace | app/api/contact/route.ts:118 | for a message without '<', turning every `<br>` back into '\n' gives back the original message |
| Mail.ReplaceKeepsSingleLine | app/api/contact/route.ts:118 | a message with no line break appears in the HTML unchanged |
| Mail.TextKeepsMessage | app/api/contact/route.ts:128-140 | the text rendering holds the message verbatim, right after its head |
| Mail.HtmlMessageIsLastField | app/api/contact/route.ts:116-119 | the message field is the last of the interpolated fields and holds no '\n' |
| ContactRoute.ClientIdentity | app/api/contact/route.ts:28 | the identity is a truthy `x-forwarded-for`, else a truthy `x-real-ip`, else "unknown"; it is never empty |
| ContactRoute.EmptyHeaderFallsThrough | app/api/contact/route.ts:28 | an empty header acts as an absent one |
| ContactRoute.RateLimitedIff | app/api/contact/route.ts:31-33 | the response is 429 exactly when the limiter rejects, and then nothing changes and nothing is sent |
| ContactRoute.ChargedBeforeValidation | app/api/contact/route.ts:31-58 | every non-429 response (400, either 500, or 200) leaves the identity's entry freshly opened or one use higher, and leaves the other entries alone |
| ContactRoute.SuccessMeansOneDispatch | app/api/contact/route.ts:61-149 | a 200 means the limiter allowed the call, the body parsed and validated, all three credentials were present, and exactly one message, the one built from the submission, was handed over and accepted |
| ContactRoute.SuccessWhenEverythingHolds | app/api/contact/route.ts:144-149 | a request that reaches the relay, and whose message the relay accepts, gets the fixed success response |
| ContactRoute.AtMostOneDispatch | app/api/contact/route.ts:144 | at most one message is handed over, and one is exactly when the request passes every gate |
| ContactRoute.DispatchFailureIsGeneric500 | app/api/contact/route.ts:144-155 | a relay failure gives the generic 500 and keeps the charged limiter state |
| ContactRoute.InvalidBodyIs400 | app/api/contact/route.ts:40-58 | a failed validation gives a 400 with that rule's message, and nothing is sent |
| ContactRoute.MissingCredentialIsNotConfigured | app/api/contact/route.ts:61-67 | any missing credential gives the same "not configured" 500, and nothing is sent |
| ContactRoute.DispatchedMailContents | app/api/contact/route.ts:79-140 | the message goes from GMAIL_USER to GMAIL_TO; the subject ends with the name; the text holds the message verbatim; the last interpolated HTML field is the `<br>`-substituted message |
| RateLimit.Step | app/api/contact/route.ts:7-23 | one check as a value: a missing or expired entry is replaced by a fresh window with count 1 and allowed; a full live window is rejected with the map unchanged; otherwise the count rises by 1 and the call is allowed |
| Validation.IsValidEmail | app/api/contact/route.ts:44 | the structural email check: a non-empty part before the first '@', no `\s` and no second '@', and a '.' inside the domain |
| Validation.ErrorMessage | app/api/contact/route.ts:41-57 | the 400 message text of each failed rule, as the source words it |
| Mail.Subject | app/api/contact/route.ts:82 | the subject line: the fixed prefix followed by the name |
| Mail.HtmlBody | app/api/contact/route.ts:104-119 | the four interpolated HTML fields: the name, the email as a mailto link, the phone as a tel link, and the message field |
| Mail.HtmlMessage | app/api/contact/route.ts:116-119 | the HTML message field, holding the message with every '\n' replaced by `<br>` |
| Mail.TextBody | app/api/contact/route.ts:128-140 | the plain-text rendering, character for character, with the four fields interpolated |
| Mail.ComposeMail | app/api/contact/route.ts:79-141 | the message handed to the relay: from the sender account, to the destination address, with the subject, HTML and text renderings |
| ContactRoute.Configured | app/api/contact/route.ts:61 | the credential gate: all three of GMAIL_USER, GMAIL_APP_PASSWORD and GMAIL_TO are present and non-empty |
| ContactRoute.BadRequest | app/api/contact/route.ts:41-57 | a validation failure answers 400 with that rule's message; the other fixed responses are the constants `TooManyRequests` (429, line 32), `NotConfigured` (500, line 64), `Sent` (200, line 147) and `SendFailed` (500, line 153) |
| ContactRoute.Handle | app/api/contact/route.ts:25-157 | one request as a value: identity, limiter charge (429 when rejected), body parse failure (generic 500), validation (400), credential gate (500 "not configured"), then exactly one message to the relay (200, or the generic 500 when the relay fails); it gives the response, the messages sent and the limiter's new map |
| ContactRoute.Post | app/api/contact/route.ts:25-157 | the handler runs its steps in the source's order over the shared limiter; its response, what it sent and the limiter's new map are exactly those of `Handle`, and the limiter invariant is kept |

## Left out

- Creating the nodemailer transport and calling `sendMail` (lines 70-76, 144) are foreign calls. They are the parameter `delivers`. Transport-creation errors are not modelled separately.
- `NextRequest`, `NextResponse`, `req.json()` and JSON encoding are framework I/O. A request is its two headers and an optional parsed body. A response is a status and either a confirmation or an error message.
- `Date.now()` and `process.env` are parameters. `console.error` logging is not modelled.
- The HTML template's document head, style sheet, headings, labels and footer are not modelled. `Mail.HtmlBody` keeps only the four interpolated value fragments (lines 106, 110, 114, 118), in order.
- Concurrent requests interleaving over the shared map are not modelled. Each request is one atomic `Post` call.
- JavaScript numbers are doubles. `now + 3600000` and `count++` are unbounded integers here, because realistic clock values are far from 2^53.
- Field lengths are counted in Unicode scalar values, not UTF-16 code units. Emoji and other characters outside the BMP therefore count once, where the source's `.length` counts them twice.
- Non-string JSON field values are not modelled. A number `email` or `name` would make `.match` or `.length` behave differently, or throw into the generic 500. Fields are `Option<string>`.
- `Mail.RestoreAfterReplace` requires a message without '<'. A message that already contains the text `<br>` cannot be told apart after the substitution.
- The page components (`components/*.tsx`) are presentational and hold no logic. `components/contact.tsx`'s submit handler only logs.
