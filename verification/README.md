# Bulk Mail front end — a Dafny model of its client-side logic

This project models the sequential logic of the Bulk Mail React client:

- **Recipient extraction** (`Recipients`, recipients.dfy): the upload handlers of
  `src/App.js` and `src/BulkMailForm.jsx`. The parsed sheet is a sequence of rows of
  cells (`Absent | Str | Num | Bool`); each row's first cell is kept when it is
  truthy and contains `@`. Order and duplicates are kept and row 0 is data. A
  truthy non-string cell makes `v.includes` throw; the handler then never stores a
  list, so the previous list stays. App.js's byte-to-binary-string fold is modelled
  with its inverse.
- **Sending** (`Sending`, sending.dfy): App.js's unguarded `send` and its status
  flag, and BulkMailForm's guard chain ("No emails loaded!" before "Subject and
  message are required!"), the `sending` flag set before the request and cleared
  in `finally`, and the disabled button.
- **History** (`History`, history.dfy): `src/EmailHistory.jsx` as a state machine:
  Prev/Next clamping, reset to page 1 on a filter change, the `totalPages || 1`
  fallback, the query parameters, one fetch round with its error-message precedence,
  and the single expanded row.
- **Login** (`Login`, login.dfy): `src/Login.jsx`'s fixed-credential check, the
  six-digit OTP drawn from a random draw, and the verify step that sets the session
  auth flag.
- **OTP boxes** (`OtpInput`, otp_input.dfy): `OtpInput.handleChange` modelled
  operationally (split, array assignment with holes, join) and proved against a
  direct description of its effect, plus the focus moves of `handleChange` and
  `handleKeyDown`.

The extraction has no file-type gate, no de-duplication, no requirement of text on both
sides of `@`, and no typed read or parse errors. Its only failure is the TypeError
of `includes` on a truthy number or boolean. A numeric `0` or `false` cell is falsy
and is dropped silently.

## Model

| member | source | states |
|---|---|---|
| Recipients.KeepCell | src/App.js:45-47 | the filter predicate throws exactly on a truthy non-string, and keeps a value exactly when it is a string containing '@' |
| Recipients.Truthy | src/App.js:46 | no contract of its own: JavaScript truthiness of a cell (undefined, "", 0 and false are falsy); used by KeepCell's contract |
| Recipients.FirstColumn | src/App.js:42 | one value per row, that row's first cell, `undefined` for an empty row |
| Recipients.FilterAddresses | src/App.js:45-47 | no contract of its own: the front-to-back filter with the first throw aborting; characterised by FilterAppend, ExtractAppend and ExtractSingleRow |
| Recipients.ExtractEmails | src/BulkMailForm.jsx:20-22 | no contract of its own: the map-then-filter chain of both handlers (also App.js:42-47); characterised by ExtractAppend and ExtractSingleRow, which determine it completely |
| Recipients.ExtractAppend | src/App.js:42-47 | extraction of concatenated sheets is the concatenation of their extractions, and the first throwing row aborts everything after it |
| Recipients.ExtractSingleRow | src/App.js:42-47 | a single row contributes its address, nothing, or the TypeError for its first cell |
| Recipients.ExtractFailsIff | src/App.js:45-47 | extraction fails if and only if some row's first cell is a truthy non-string |
| Recipients.ExtractFailureIsFirstThrow | src/App.js:45-47 | the error reported is the one for the first such row in row order |
| Recipients.ExtractedAreAddresses | src/App.js:45-47 | every extracted value contains '@' and is non-empty, and the list is no longer than the sheet |
| Recipients.ExtractKeepsMultiplicity | src/App.js:42-47 | an address that is the first cell of k rows appears exactly k times (duplicates kept); a string without '@' appears 0 times |
| Recipients.ExtractMembership | src/App.js:42-47 | a string is extracted iff it contains '@' and is the first cell of some row |
| Recipients.NoHeaderSkip | src/App.js:42-46 | an address in row 0 is the first element of the result: no header row is skipped |
| Recipients.ExtractOnePass | src/BulkMailForm.jsx:20-22 | ExtractEmails models the map-then-filter chain of both handlers; this single-loop implementation of it gives the same result on every sheet, errors included |
| Recipients.Upload | src/BulkMailForm.jsx:16-23 | a successful extraction becomes the list; a throwing one leaves the previous list in place |
| Recipients.UploadReplaces | src/BulkMailForm.jsx:23 | after a successful upload the list does not depend on any earlier list (replace, not append), and its length, the displayed total, is at most the row count |
| Recipients.BinaryString | src/App.js:31-34 | the binary string has one character per byte and character i has code byte i |
| Recipients.BinaryStringRoundTrip | src/App.js:31-34 | char codes of the binary string give back the bytes, and converting a byte-ranged string's codes gives back the string |
| Sending.SettleAlert | src/BulkMailForm.jsx:39-40 | the success alert is shown exactly on delivery and the error alert exactly on rejection |
| Sending.AppSend | src/App.js:58-65 | App.js's send raises status and posts exactly the current list, subject and message, with no guard |
| Sending.AppSettle | src/App.js:66-75 | settlement lowers status on success and on failure, with the matching alert, and changes nothing else |
| Sending.AppSendUnguarded | src/App.js:58-75 | the request is issued for every state, an empty list included, and every outcome returns status to false |
| Sending.SendGuard | src/BulkMailForm.jsx:29-38 | a request is issued iff list, subject and message are all non-empty, carrying exactly those; an empty list gives "No emails loaded!" before the subject/message check |
| Sending.FormClick | src/BulkMailForm.jsx:28-38 | a click on the disabled button does nothing; otherwise a post happens iff the guard allows it, and only then is `sending` raised; a refused click shows the guard's alert |
| Sending.FormSettle | src/BulkMailForm.jsx:39-41 | every outcome shows its alert and clears `sending`, re-enabling the button, with the rest of the form unchanged |
| Sending.SendEnabled | src/BulkMailForm.jsx:82 | no contract of its own: the button is enabled exactly when `sending` is false; used by FormClick and FormSettle |
| Sending.FormSendLifecycle | src/BulkMailForm.jsx:32-41 | from click to settlement `sending` is true and a second click is ignored; after any outcome the form is as before the click |
| History.PrevPage | src/EmailHistory.jsx:186 | Prev never goes below 1 and decrements any page above 1 |
| History.NextPage | src/EmailHistory.jsx:196 | Next never exceeds totalPages and increments any page below it |
| History.Prev | src/EmailHistory.jsx:186 | no contract of its own: the Prev click on the whole state; characterised by PagingKeepsRange |
| History.Next | src/EmailHistory.jsx:196 | no contract of its own: the Next click on the whole state; characterised by PagingKeepsRange and NextAfterShrink |
| History.PrevDisabled | src/EmailHistory.jsx:185 | no contract of its own: Prev is disabled at page 1; PagingKeepsRange proves this is exactly where Prev would not move |
| History.NextDisabled | src/EmailHistory.jsx:195 | no contract of its own: Next is disabled at page totalPages; PagingKeepsRange proves this is exactly where Next would not move |
| History.PagerShown | src/EmailHistory.jsx:181 | no contract of its own: the pager renders only when totalPages > 1; premise of NextAfterShrink |
| History.PagingKeepsRange | src/EmailHistory.jsx:183-199 | Prev and Next keep 1 <= page <= totalPages, move one page when their button is enabled, stay put exactly when it is disabled, and change nothing else |
| History.NextAfterShrink | src/EmailHistory.jsx:195-196 | while the pager is shown, a page left beyond a shrunken totalPages is not clamped, and Next is enabled and moves it back to the last page |
| History.SetStatusFilter | src/EmailHistory.jsx:64-66 | no contract of its own: store the status filter and reset to page 1; characterised by FilterChangeResetsPage |
| History.SetSearch | src/EmailHistory.jsx:81-83 | no contract of its own: store the search text and reset to page 1; characterised by FilterChangeResetsPage |
| History.FilterChangeResetsPage | src/EmailHistory.jsx:61-85 | changing the status filter or the search text sets page 1, which is in range, and changes only that filter and the page |
| History.QueryParams | src/EmailHistory.jsx:25-30 | the query always holds page and limit 10; status and search are present iff non-empty, with their values; no other keys |
| History.TotalPagesFrom | src/EmailHistory.jsx:33 | a missing or zero totalPages becomes 1, any other value is kept, and a non-negative report yields at least 1 |
| History.ErrorMessage | src/EmailHistory.jsx:35-39 | a cancellation sets nothing; otherwise a non-empty server error wins, then "Network / CORS error" for messages starting with "Network", then the raw message |
| History.FetchStart | src/EmailHistory.jsx:20-21 | no contract of its own: loading on and error cleared on entry to fetchData; characterised by FetchRound |
| History.FetchSucceeded | src/EmailHistory.jsx:32-33 | no contract of its own: records and totalPages from the response, then loading off; characterised by FetchRound |
| History.FetchFailed | src/EmailHistory.jsx:34-41 | no contract of its own: the chosen error message (none on cancellation), then loading off; characterised by FetchRound |
| History.FetchRound | src/EmailHistory.jsx:18-45 | one fetch ends with loading false on every path; success shows the records with no error, failure shows the chosen message, and page and filters are untouched |
| History.Toggle | src/EmailHistory.jsx:131 | toggling a row opens it iff it was closed, and leaves every other row closed |
| History.AtMostOneExpanded | src/EmailHistory.jsx:140 | with distinct record ids, no two rows are expanded at once |
| Login.ConfiguredPassword | src/Login.jsx:17 | the configured password is the environment value when non-empty, otherwise the built-in default |
| Login.Decimal | src/Login.jsx:53 | a number prints as a non-empty digit string with no leading zero |
| Login.DecimalRoundTrip | src/Login.jsx:53 | parsing a printed number gives the number back |
| Login.DecimalLength | src/Login.jsx:53 | a number in [10^k, 10^(k+1)) prints with k+1 digits |
| Login.GenerateOtp | src/Login.jsx:53 | the OTP for draw k is a six-digit numeral without leading zero whose value is 100000 + k, in [100000, 999999] |
| Login.GenerateOtpInjective | src/Login.jsx:53 | distinct draws give distinct OTPs |
| Login.CredentialError | src/Login.jsx:59 | "Invalid email address" iff the email is wrong, regardless of the password, and "Invalid password" otherwise |
| Login.FormSubmits | src/Login.jsx:131-170 | no contract of its own: the form submits only before the OTP stage (the button is rendered under `!showOtp`), with a non-empty password and a non-empty email the browser accepts as an address |
| Login.Submit | src/Login.jsx:44-66 | a blocked submit changes nothing; a submit that goes through opens the OTP stage with a fresh OTP iff email and password match, and otherwise shows the credential error; the auth flag never changes |
| Login.FirstSubmit | src/Login.jsx:49-59 | from a fresh page, the OTP stage is reached exactly on the fixed address and configured password (when the browser accepts the email), the email error takes precedence, and a blocked submit shows no error |
| Login.Verify | src/Login.jsx:68-77 | in the OTP stage the auth flag is raised iff the entered OTP equals the generated one, otherwise "Incorrect OTP" is shown and the flag is unchanged; outside it the button is absent and nothing changes |
| Login.EnterOtp | src/Login.jsx:178 | no contract of its own: the OTP boxes' `onChange={setOtp}` stores the edited string; TransitionsKeepWellFormed shows it keeps the stage invariant |
| Login.AuthOnlyAfterCredentials | src/Login.jsx:173-186 | the auth flag is raised only from the OTP stage: on a fresh page no entered OTP authenticates, and after a submit only matching credentials can lead to authentication |
| Login.TransitionsKeepWellFormed | src/Login.jsx:44-77 | every transition keeps the invariant that an OTP exists exactly in the OTP stage |
| Login.OnlyGeneratedOtpAuthenticates | src/Login.jsx:69-74 | in the OTP stage only the exact generated six-digit string authenticates; any other entry gives "Incorrect OTP" |
| OtpInput.Split | src/Login.jsx:197 | splitting gives one single-character entry per character |
| OtpInput.Assign | src/Login.jsx:198 | array assignment sets the index, keeps every other element, and fills any gap past the end with holes |
| OtpInput.LastChar | src/Login.jsx:198 | `slice(-1)` is the last character, or empty for an empty string |
| OtpInput.Join | src/Login.jsx:199 | no contract of its own: `join("")`, with holes joining as ""; characterised by JoinSplit (and JoinAppend, JoinHoles) |
| OtpInput.HandleChange | src/Login.jsx:196-200 | no contract of its own: split, assign `val.slice(-1)` at index, join; characterised by ChangeInRange, OverwriteInPlace, ClearShiftsLeft and PastEndAppends |
| OtpInput.JoinSplit | src/Login.jsx:197-199 | joining a split string gives the string back |
| OtpInput.ChangeInRange | src/Login.jsx:196-200 | inside the string, the edit replaces the character at index by the last character of val |
| OtpInput.OverwriteInPlace | src/Login.jsx:197-200 | with a non-empty val, the length is kept, position index holds val's last character and every other position is unchanged |
| OtpInput.ClearShiftsLeft | src/Login.jsx:197-199 | with an empty val, the character at index is removed and later characters shift left by one |
| OtpInput.PastEndAppends | src/Login.jsx:197-199 | at or past the end, the edit appends val's last character whatever the index |
| OtpInput.BoxText | src/Login.jsx:221 | a box shows its character, or nothing past the end of the string |
| OtpInput.TypedDigitLandsInFirstEmptyBox | src/Login.jsx:196-200 | a digit typed into a box beyond the first empty one shows in the first empty box, and the typed-into box stays empty |
| OtpInput.FocusAfterChange | src/Login.jsx:202-204 | focus moves forward, to index + 1, iff val is non-empty and index < length - 1 |
| OtpInput.FocusAfterKey | src/Login.jsx:207-211 | focus moves back one box iff the key is Backspace, the box is empty and i > 0 |
| OtpInput.FocusStaysInBoxes | src/Login.jsx:178 | with six boxes, focus never leaves the row: no forward move from the last box, no backward move from the first |

## Left out

- Sheet parsing (`XLSX.read`, `sheet_to_json`) and `FileReader`: a library and an asynchronous browser API; the parsed rows are the model's input, and cells are strings, integers, booleans or absent (no dates, no floating-point numbers, no NaN).
- The network: axios requests, backend URLs, environment configuration and `AbortController`. Requests are output records, responses and errors are inputs.
- React scheduling: hooks, the effect that refetches when page, status or search change, and batching of state updates; each handler is one state transition.
- Presentation: rendering, CSS classes, the status colour mapping, the loading/error/empty/table choice, and date formatting.
- Login side channels: speech synthesis, `console.log`, the one-second `setTimeout` (collapsed into `Login.Submit`, so the `isLoading` flag is not modelled), the password visibility toggle and the dismiss button. `sessionStorage` and `navigate` are the `isAuth` flag.
- Login.GenerateOtp: `Math.random()` is a float in [0, 1) and the arithmetic is in doubles; the model takes an integer draw k in [0, 900000), since every OTP the expression can produce is 100000 + k for some such k.
- Strings are sequences of Unicode scalar values, not UTF-16 code units: for a character outside the Basic Multilingual Plane (an emoji, say), `split("")`, `slice(-1)`, `value[i]` and `.length` in OtpInput see two surrogate code units where the model sees one character, so lengths and positions differ from the model for such input.
- History response records: only id, subject, status and recipient count are kept; per-recipient entries are display-only.
