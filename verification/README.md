# Receipt extraction and form rules of an expense tracker, in Dafny

This project models the core of an expense-management web application.

**The receipt-extraction edge function.** It takes an uploaded receipt, asks a
generative model to read it, and returns a cleaned expense draft. The model
covers three parts of it:

- The guard chain: configuration, then the authorization header, then the
  caller's identity, then the file's presence, MIME type and size.
- How each failure of the upstream model call maps to a response.
- The post-processing of the model's JSON:
  - field defaulting;
  - the net + VAT = gross coherence repair;
  - rounding to two decimals.

**The small pure rules of the front end:**

- the data table's search filter, sort and sort toggle;
- the keyboard-navigation index and focus-trap rules, and the contrast ratio;
- the zod validation schemas and the expense form's defaults, amount coercion
  and submit rule;
- the role predicates;
- the progress-bar clamp and the dashboard's budget severity;
- the password pre-checks and message mapping of the sign-in and invitation
  pages.

Everything is pure functions over immutable datatypes. Effects become values:

- **External services are parameters or outcome values.** The environment, the
  identity service, the form parser, the model's HTTP reply, `JSON.parse`,
  Supabase's sign-in and sign-up calls and the invitation lookup each become
  a parameter or a datatype of outcomes.
- **The clock is a parameter.** Today's date (`new Date().toISOString()`'s
  date part) is passed in.
- **Number printing is a parameter.** JavaScript's number-to-string conversion
  is `show: real -> string`.
- **JavaScript's `<` is a parameter.** The sort's comparison of cell values is
  `lt`. Orderedness is proved when `lt` is a strict partial order.
- **Handlers record their effects.** The request handler returns the external
  calls it made, in order. The page handlers return the toast, the navigation,
  the `signUp` arguments and the successive values of `isLoading`.

Numbers are exact `real`s. JavaScript's NaN is kept where the code can reach
it (`Number(…)`, `parseFloat`, `% 0`), and so are the infinities that division
by zero produces. The `Infinity` literals that `Number` and `parseFloat` read
are not modelled (see "Left out").

Module layout, one file per module:

| file | module | models |
|---|---|---|
| common.dfy | Common | `Option`, and `Result` for values or thrown errors |
| text.dfy | Text | JavaScript whitespace and `trim`, ASCII `toLowerCase`, `includes`, decimal rendering |
| numbers.dfy | Numbers | JavaScript numbers with NaN and infinities; `Number(string)`, `parseFloat`, `/`, `Math.max`, `Math.min` |
| values.dfy | Values | JSON values, truthiness, `\|\|`, property access, `Number(v)`, `String(v)` |
| money.dfy | Money | `Math.round(x * 100) / 100` |
| extraction.dfy | Extraction | `cleanedData`, the coherence repair, the rounding |
| extract_handler.dfy | ExtractHandler | the request handler of the edge function |
| data_table.dfy | DataTable | `filteredData`, `sortedData`, `handleSort`, default cell text |
| accessibility.dfy | Accessibility | `addKeyboardNavigation`, `trapFocus`, `checkColorContrast` |
| validations.dfy | Validations | the shared zod schemas |
| expense_form.dfy | ExpenseForm | the expense form |
| auth_roles.dfy | AuthRoles | `isAdmin`, `hasRole`, the arguments of `signUp` |
| progress_bar.dfy | ProgressBar | the fill percentage |
| dashboard.dfy | Dashboard | the budget-card variant |
| ui.dfy | Ui | toasts |
| auth_page.dfy | AuthPage | `handleLogin`, `handleSignup` |
| accept_invitation.dfy | AcceptInvitation | the token gate and `handleSubmit` |

## Behaviour of the code worth knowing

- **Request method.** The handler answers `OPTIONS` at once and never checks
  any other method. A `GET` is processed like a `POST`.
- **Category and payment method.** These are only defaulted when falsy. The
  enumerations in the prompt are sent to the model but never enforced. Any
  truthy JSON value (even a number) passes through.
- **Whitespace-only vendor.** It is trimmed after defaulting, so it becomes `""`
  rather than the placeholder. Normalizing the result a second time then gives
  the placeholder, so normalization is not idempotent.
- **Coherence after rounding.** Within one cent only when the repair fired.
  When it did not fire, rounding can break the identity.
- **Non-string vendor or `null` JSON.** A truthy vendor that is not a string
  makes `.trim` throw, and JSON that parses to `null` makes a property read
  throw. Both reach the outer `catch` and give 500 "Internal server error".
- **An amount object with its own `toString` field.** `Number` of such a
  value throws a TypeError: its `toString` is not a function and its `valueOf`
  returns the object itself. An array holding such an object throws too. The
  extraction then answers 500 "Internal server error", not a zero amount.
- **A non-2xx reply reads its body.** The handler awaits `text()` before it
  answers "AI analysis failed", so a body that cannot be read reaches the
  outer `catch` instead, with that error's message.
- **`getInvitationByToken`.** The invitation page imports it from
  `src/lib/auth.ts`, which does not export it. The lookup is a parameter here.
- **`signUp`'s role parameter.** The sign-in page passes the organization name
  into it. The invitation page passes `undefined`, so the default `'ADMIN'`
  applies whatever role the invitation carries, plus a token argument that
  `signUp` does not declare. The model records the arguments as `signUp`
  receives them.

## Model

| member | source | states |
|---|---|---|
| ExtractHandler.Handle | supabase/functions/extract-expense/index.ts:23-252 | The response status is one of 200, 400, 401 or 500. External calls happen in a fixed order: identity, then form, then model. The model is called only with an allowed type. A success implies all three calls were made. |
| ExtractHandler.FirstFailingCheckDecides | supabase/functions/extract-expense/index.ts:25-90 | Each guard in order decides the response when it is the first to fail: preflight, key, header, identity, file presence, type, size. Each names its own status and message, and no later external call is made. |
| ExtractHandler.UnauthorizedIff | supabase/functions/extract-expense/index.ts:39-63 | 401 exactly when the header is missing or empty, or the identity check errs or finds no user, after the key check passes. |
| ExtractHandler.BadRequestIff | supabase/functions/extract-expense/index.ts:65-90 | 400 exactly when every earlier check passes and the file entry is missing, the wrong type or over the size cap. |
| ExtractHandler.ModelCalledIff | supabase/functions/extract-expense/index.ts:65-158 | The model is called exactly when every request check passes, and with the file's own MIME type. |
| ExtractHandler.SuccessIff | supabase/functions/extract-expense/index.ts:160-240 | `success: true` exactly when every check passes, the reply yields parsed JSON and normalizing it does not throw. The data is then the normalized draft, with status 200. |
| ExtractHandler.OkIff | supabase/functions/extract-expense/index.ts:25-27 | 200 is returned for the preflight or for a success, and for nothing else. |
| ExtractHandler.AuthUnusedUntilAsked | supabase/functions/extract-expense/index.ts:30-56 | When the identity service was not asked, its answer cannot change the result. |
| ExtractHandler.ModelUnusedUntilCalled | supabase/functions/extract-expense/index.ts:65-158 | When the model was not called, its reply cannot change the result. |
| ExtractHandler.AcceptedTypes | supabase/functions/extract-expense/index.ts:76-90 | A file passes exactly when its type is one of the four listed strings (compared exactly) and its size is at most 10485760 bytes. |
| ExtractHandler.SizeBoundary | supabase/functions/extract-expense/index.ts:84-90 | Exactly 10 MiB passes; one byte more fails. |
| ExtractHandler.HandleFile | supabase/functions/extract-expense/index.ts:65-90 | The model is called exactly when the file is acceptable, and then with its type. Otherwise the answer is 400. |
| ExtractHandler.ReadReply | supabase/functions/extract-expense/index.ts:160-202 | Every rejection of the model's reply is a 500 failure. Parsed JSON comes only from a 2xx reply with a JSON body. A body that cannot be read gives the catch-all 500 with its message, whatever the status; a readable non-2xx reply gives "AI analysis failed" with details "API returned <status>". |
| ExtractHandler.ReadCandidates | supabase/functions/extract-expense/index.ts:175-202 | A rejected reply is a 500 with one of the no-results, invalid-results, invalid-JSON or internal-error messages. A `null` reply throws; a reply that is not an object, or has falsy candidates, gets "AI analysis produced no results". Parsed JSON comes only from an object with truthy candidates. |
| ExtractHandler.ReadText | supabase/functions/extract-expense/index.ts:192-202 | A text part yields a value exactly when `JSON.parse` succeeds on it, and the value is what `JSON.parse` returns. A `null` part, or a text with no primitive form, gives the invalid-JSON 500, like every other failure. |
| ExtractHandler.MalformedCandidates | supabase/functions/extract-expense/index.ts:175-190 | An empty candidate list gives "AI analysis produced no results". A first candidate without content, content without parts, or an empty parts list gives "AI analysis produced invalid results". |
| ExtractHandler.ReplyWithTextReachesPart | supabase/functions/extract-expense/index.ts:175-195 | A reply of the requested shape passes every candidate check, and its first part goes to the parse. |
| ExtractHandler.AmountWithoutPrimitiveFails | supabase/functions/extract-expense/index.ts:205-251 | A parsed extraction whose gross amount is an object with its own `toString` field gives the catch-all 500, not a success. |
| ExtractHandler.Respond | supabase/functions/extract-expense/index.ts:192-251 | Status 200 exactly for a success body, otherwise 500. The success data is the normalized draft. |
| ExtractHandler.UpstreamFailures | supabase/functions/extract-expense/index.ts:160-190 | A rejected fetch, a body that cannot be read (at any status) or a 2xx body that is not JSON gives the catch-all 500 with its message. A non-2xx status with a readable body gives "AI analysis failed" with details "API returned <status>". Missing or empty candidates give "AI analysis produced no results". A candidate without content or parts gives "AI analysis produced invalid results". A well-shaped reply whose text does not parse gives "AI analysis produced invalid JSON". |
| ExtractHandler.WellFormedReplyExtracts | supabase/functions/extract-expense/index.ts:183-195 | A 2xx reply with one candidate whose first part's text parses yields exactly the parsed value. |
| Extraction.Clean | supabase/functions/extract-expense/index.ts:205-216 | Cleaning throws exactly for `null` or undefined JSON, a truthy non-string vendor, or an amount with no primitive form, always with a TypeError. Otherwise every defaulted field is truthy, the optional ones are `null` or truthy, and the date is truthy whenever today is non-empty. |
| Extraction.CleanFields | supabase/functions/extract-expense/index.ts:205-216 | A falsy field takes its default (placeholder vendor, today, 0, EUR, Otros, OTHER, `null`); a truthy one passes through unchanged with no enumeration check; the vendor is trimmed after defaulting; each amount is `Number(v) \|\| 0` of its field. |
| Extraction.Amount | supabase/functions/extract-expense/index.ts:208-210 | `Number(v) \|\| 0` throws exactly when `Number(v)` does. Otherwise it is the numeric value, and 0 for NaN. |
| Extraction.CleanVendorTrimmed | supabase/functions/extract-expense/index.ts:206 | The cleaned vendor is already trimmed. |
| Extraction.CleanOfToJson | supabase/functions/extract-expense/index.ts:205-216 | A draft of the cleaned shape, with a trimmed non-empty vendor, is left unchanged by cleaning its JSON. |
| Extraction.BlankVendorBecomesEmpty | supabase/functions/extract-expense/index.ts:206-210 | A non-empty whitespace-only vendor string becomes `""`, not the placeholder; normalizing then fails only when an amount has no primitive form. |
| Extraction.EmptyVendorRenormalized | supabase/functions/extract-expense/index.ts:206 | A draft with an empty vendor normalizes again to the placeholder vendor. |
| Extraction.Repair | supabase/functions/extract-expense/index.ts:218-226 | The repaired draft is coherent within a cent. Only the net amount can change, and it changes exactly when the draft was incoherent, to gross − VAT. |
| Extraction.RoundAmounts | supabase/functions/extract-expense/index.ts:228-231 | The three amounts become whole cents within half a cent of their old values. Nothing else changes. |
| Extraction.RoundAmountsIdempotent | supabase/functions/extract-expense/index.ts:228-231 | Rounding twice is rounding once. |
| Extraction.RepairThenRoundCoherence | supabase/functions/extract-expense/index.ts:218-231 | After repair and rounding, the identity holds within two cents, and within one cent when the repair fired. |
| Extraction.RoundingCanBreakCoherence | supabase/functions/extract-expense/index.ts:218-231 | With net 0.005, VAT 0.005 and gross 0 the draft is coherent, yet not coherent after rounding. |
| Extraction.Normalize | supabase/functions/extract-expense/index.ts:205-231 | Normalizing throws exactly when cleaning throws. Its amounts are whole cents, and its vendor is the cleaned vendor. |
| Extraction.NormalizeCoherence | supabase/functions/extract-expense/index.ts:218-231 | A normalized draft satisfies net + VAT = gross within two cents, and within one cent when the cleaned draft needed repair. |
| Extraction.NormalizeFixedPoint | supabase/functions/extract-expense/index.ts:205-231 | Normalizing the JSON of a normalized draft again gives the same draft, when its vendor is non-empty, its identity holds within a cent and today was non-empty. |
| Extraction.NormalizeOfToJson | supabase/functions/extract-expense/index.ts:205-231 | A draft in the cleaned shape, in whole cents, coherent and with a trimmed non-empty vendor, is a fixed point of normalization. |
| Money.JsRound | supabase/functions/extract-expense/index.ts:229 | `Math.round` lands within half of its argument, with halves rounded up. |
| Money.RoundCents | supabase/functions/extract-expense/index.ts:229-231 | The result is whole cents within half a cent of the input. |
| Money.RoundCentsOfCents | supabase/functions/extract-expense/index.ts:229-231 | Whole cents are unchanged by rounding. |
| Money.RoundCentsMonotone | supabase/functions/extract-expense/index.ts:229-231 | Rounding preserves order. |
| Money.RoundedCoherenceWithinCent | supabase/functions/extract-expense/index.ts:225-231 | Rounding gross − VAT, VAT and gross keeps their identity within one cent. |
| Money.RoundedCoherenceWithinTwoCents | supabase/functions/extract-expense/index.ts:222-231 | Three amounts whose identity holds within a cent keep it within two cents after rounding. |
| Values.ToStr | src/components/ui/data-table.tsx:73 | `String(v)` of a string is the string, of a number its printed form, of an object "[object Object]", and of an empty array or a one-element array of `null` or undefined the empty string. |
| Numbers.StringToNumber | supabase/functions/extract-expense/index.ts:208-210 | `Number(s)` of a blank string is 0. Otherwise it is finite exactly when the trimmed string is, as a whole, a literal of the grammar `[+-]? (d+ (. d*)? \| . d+) ([eE] [+-]? d+)?` (`IsDecimalLiteral`), and then it is that literal's value. It is never an infinity. |
| Numbers.ParseFloat | src/components/forms/ExpenseForm.tsx:126 | `parseFloat(s)` is finite exactly when some non-empty prefix of the text after the leading whitespace is a literal of that grammar. A longest such prefix then exists, and the result is its value. Otherwise the result is NaN. It is never an infinity. |
| Numbers.ScanLiteralIsLongestLiteral | src/components/forms/ExpenseForm.tsx:126 | The scanner behind both conversions finds a literal exactly when some non-empty prefix is one. What it finds is the longest literal prefix: no longer prefix is a literal. Its value is that prefix's value as the grammar reading collects it. |
| Numbers.LongestIsUnique | src/components/forms/ExpenseForm.tsx:126 | A text has at most one longest literal prefix, so the value `parseFloat` reads is determined. |
| Numbers.DanglingExponent | supabase/functions/extract-expense/index.ts:208-210 | A trailing exponent mark with no digits makes `Number("2.5e")` NaN, while `parseFloat("2.5e")` keeps the literal before it and gives 2.5. |
| Text.Trim | supabase/functions/extract-expense/index.ts:206 | `trim` never lengthens the string, and its result neither starts nor ends with whitespace. |
| Values.Or | supabase/functions/extract-expense/index.ts:206-215 | `a \|\| b` is `a` when truthy and `b` otherwise. |
| Values.ToNumber | supabase/functions/extract-expense/index.ts:208-210 | `Number(v)` throws exactly for an object with its own `toString` field or an array holding one at any depth. Otherwise a number converts to itself, undefined and any other object to NaN, and nothing to an infinity. |
| Numbers.StringToNumberOfShowNat | supabase/functions/extract-expense/index.ts:208-210 | `Number` and `parseFloat` read back the decimal rendering of a natural number as that number. |
| Numbers.StringToNumberOfSpaces | supabase/functions/extract-expense/index.ts:208-210 | `Number` of an all-whitespace string is 0. |
| Numbers.ParseFloatOfSpaces | src/components/forms/ExpenseForm.tsx:126 | `parseFloat` of an all-whitespace string is NaN. |
| Text.TrimKeepsInfix | supabase/functions/extract-expense/index.ts:206 | `trim` removes only whitespace, from both ends, and keeps the middle as is. |
| Text.TrimEmptyIffAllSpace | supabase/functions/extract-expense/index.ts:206 | `trim` gives `""` exactly for all-whitespace strings. |
| Text.TrimIdempotent | supabase/functions/extract-expense/index.ts:206 | Trimming twice is trimming once. |
| DataTable.FilterRows | src/components/ui/data-table.tsx:68-76 | An empty term keeps the data as is. Otherwise a row is kept exactly when some field's lower-cased text contains the lower-cased term. |
| DataTable.KeepCounts | src/components/ui/data-table.tsx:71-75 | Filtering keeps every matching row as many times as it occurs and drops every other row. |
| DataTable.FilterInOrder | src/components/ui/data-table.tsx:71-75 | The kept rows appear in their original relative order. |
| DataTable.Compare | src/components/ui/data-table.tsx:81-92 | The comparator is −1, 0 or 1: by `<` first, then `>`, with the sign flipped for descending. |
| DataTable.SortRows | src/components/ui/data-table.tsx:81-92 | The sorted rows are a permutation of the input. |
| DataTable.SortSorted | src/components/ui/data-table.tsx:81-92 | For a strict partial order, no row is placed after a row it precedes. |
| DataTable.SortedData | src/components/ui/data-table.tsx:78-93 | With no sort key the rows are shown as filtered. In every case they are a permutation of the filtered rows. |
| DataTable.SortedDataOrdered | src/components/ui/data-table.tsx:78-93 | Sorted ascending, no value is less than a value before it; sorted descending, no value is greater. |
| DataTable.HandleSort | src/components/ui/data-table.tsx:95-100 | The key becomes the clicked key. The direction becomes descending exactly when that key was already sorted ascending. |
| DataTable.HandleSortTwice | src/components/ui/data-table.tsx:95-100 | Clicking the current column twice restores the sort state. |
| DataTable.CellText | src/components/ui/data-table.tsx:182 | A truthy cell shows `String(value)`; any falsy one, 0 and `""` included, shows "-". |
| DataTable.CellTextFound | src/components/ui/data-table.tsx:68-76 | A row whose truthy cell shows the term, in any letter case, is kept by the search. |
| Accessibility.KeyDown | src/lib/accessibility.ts:94-121 | Every handled key prevents the default action. The four movement keys refocus. Enter and Space activate and leave the index unchanged, and so does any other key. |
| Accessibility.JsRem | src/lib/accessibility.ts:98 | `%` truncates toward zero and gives NaN for zero items. |
| Accessibility.KeyDownKeepsRange | src/lib/accessibility.ts:94-121 | With items present, the index stays on an item under every key. |
| Accessibility.ArrowDownWraps | src/lib/accessibility.ts:96-100 | ArrowDown moves to the next item and wraps from the last to the first. |
| Accessibility.ArrowUpWraps | src/lib/accessibility.ts:101-105 | ArrowUp moves to the previous item and wraps from the first to the last. |
| Accessibility.UpUndoesDown | src/lib/accessibility.ts:96-105 | ArrowUp and ArrowDown undo each other. |
| Accessibility.HomeAndEnd | src/lib/accessibility.ts:106-115 | Home goes to the first item and End to the last. |
| Accessibility.NoItemsGivesNaN | src/lib/accessibility.ts:96-105 | With no items, ArrowDown makes the index NaN, and it stays NaN. |
| Accessibility.TabIndexes | src/lib/accessibility.ts:87-92 | Item k gets "0" if it is the current one and "-1" otherwise. |
| Accessibility.ExactlyOneTabStop | src/lib/accessibility.ts:87-92 | Exactly one item, the current one, is in the tab order. |
| Accessibility.TrapKey | src/lib/accessibility.ts:27-44 | Focus moves only to one of the focusable elements, and only on Tab with at least one element. |
| Accessibility.TrapWraps | src/lib/accessibility.ts:30-44 | Shift+Tab on the first element goes to the last, and Tab on the last goes to the first. In every other case the trap does nothing. |
| Accessibility.Luminance | src/lib/accessibility.ts:67-71 | The luminance of any colour is in [0, 1]. |
| Accessibility.ContrastRatio | src/lib/accessibility.ts:64-80 | `checkColorContrast` is at least 1 for every pair of colours. |
| Accessibility.Ratio | src/lib/accessibility.ts:73-79 | The ratio is at least 1, and exactly 1 when the luminances are equal. |
| Accessibility.RatioSymmetric | src/lib/accessibility.ts:76-79 | The order of the two colours does not matter. |
| Accessibility.ContrastAlwaysOne | src/lib/accessibility.ts:64-80 | With the placeholder luminance, every pair of colours has ratio 1. |
| Validations.LoginIssues | src/lib/validations.ts:4-7 | A login is valid exactly when the e-mail is well formed and the password is non-empty. |
| Validations.SignupIssues | src/lib/validations.ts:9-18 | A signup is valid exactly when the name and organization have at least 2 characters, the e-mail is well formed, the password has at least 6 and the confirmation equals it. |
| Validations.SignupMismatchReported | src/lib/validations.ts:15-18 | The mismatch issue on `confirmPassword` is reported exactly when the passwords differ, whatever else fails. |
| Validations.ExpenseIssues | src/lib/validations.ts:21-28 | An expense is valid exactly when the vendor is non-empty, the gross amount is at least 0.01, the category is a UUID, the date is valid, and any project code is a UUID. Notes never fail. |
| Validations.InvitationIssues | src/lib/validations.ts:31-34 | An invitation is valid exactly when the e-mail is well formed and the role is exactly ADMIN or EMPLOYEE. |
| Validations.OrganizationIssues | src/lib/validations.ts:37-43 | An organization update is valid exactly when the name has at least 2 characters and the slug has at least 2, all in [a-z0-9-]. |
| Validations.OrganizationIssuesAccumulate | src/lib/validations.ts:37-43 | One issue is reported per failing check, so a one-character bad slug gets two. |
| Validations.ProfileIssues | src/lib/validations.ts:46-50 | A profile update is valid exactly when the name has at least 2 characters. |
| ExpenseForm.FormIssues | src/components/forms/ExpenseForm.tsx:16-22 | Valid exactly when the description has at least 3 characters, the amount is at least 0.01, and the category and date are non-empty. |
| ExpenseForm.Defaults | src/components/forms/ExpenseForm.tsx:54-60 | Without initial data the form starts blank with today's date. Notes are always present, and the date is non-empty whenever today is. |
| ExpenseForm.BlankFormIssues | src/components/forms/ExpenseForm.tsx:16-22 | A blank form fails on the description, the amount and the category, in that order. |
| ExpenseForm.DefaultsOfValidEdit | src/components/forms/ExpenseForm.tsx:54-60 | Editing a valid expense starts from exactly its values. |
| ExpenseForm.CoerceAmount | src/components/forms/ExpenseForm.tsx:126 | The stored amount is `parseFloat`'s value, or 0 when that is NaN. |
| ExpenseForm.CoerceAmountOfShowNat | src/components/forms/ExpenseForm.tsx:126 | Typing a whole number stores that number. |
| ExpenseForm.NonNumericAmountRejected | src/components/forms/ExpenseForm.tsx:126 | Input that holds no number stores 0, and the schema then rejects the form. |
| ExpenseForm.SubmitDisabled | src/components/forms/ExpenseForm.tsx:214 | Submit is enabled exactly when not loading and every field rule holds. |
| ExpenseForm.HandleSubmit | src/components/forms/ExpenseForm.tsx:64-79 | A failed save shows a destructive toast and keeps the values. A successful save resets the form to its defaults. |
| ExpenseForm.SavedNewExpenseResets | src/components/forms/ExpenseForm.tsx:54-79 | After a new expense is saved, the form holds the blank defaults with a confirmation toast, and submit is disabled until it is filled in again. |
| AuthRoles.IsAdmin | src/lib/auth.ts:94-96 | No user is no admin; a user is admin exactly when their role is ADMIN. |
| AuthRoles.HasRole | src/lib/auth.ts:98-100 | No user has any role; a user has a role exactly when it is theirs. |
| AuthRoles.IsAdminIsHasRole | src/lib/auth.ts:94-100 | `isAdmin` is `hasRole` with ADMIN for every user. With no user, neither holds for any role. |
| AuthRoles.RolesExclusive | src/lib/auth.ts:98-100 | No user has both roles, and a present user has one of them. |
| ProgressBar.Percentage | src/components/ui/progress-bar.tsx:23 | The fill is in [0, 100], and NaN only when value and max are both 0. |
| ProgressBar.PercentageOfPositiveMax | src/components/ui/progress-bar.tsx:23 | For max > 0: 0 at or below zero, 100 at or above max, and value/max·100 in between. |
| ProgressBar.PercentageMonotone | src/components/ui/progress-bar.tsx:23 | For a fixed max > 0, a larger value never shows less. |
| ProgressBar.PercentageOfDefaultMax | src/components/ui/progress-bar.tsx:16-23 | With the default max of 100, the fill is the value clamped to [0, 100]. |
| Dashboard.Classify | src/pages/Dashboard.tsx:99 | A finite percentage above 90 is danger and one in (75, 90] a warning; +∞ is danger; NaN and −∞ are success. |
| Dashboard.BudgetVariant | src/pages/Dashboard.tsx:98-99 | For a positive budget: danger exactly above 90 %, warning exactly in (75, 90], success exactly at or below 75. |
| Dashboard.ThresholdsAreInclusive | src/pages/Dashboard.tsx:99 | Exactly 90 % is a warning, and exactly 75 % a success. |
| Dashboard.SeverityMonotone | src/pages/Dashboard.tsx:98-99 | For a fixed positive budget, spending more never lowers the severity. |
| Dashboard.ZeroBudget | src/pages/Dashboard.tsx:98-99 | With a zero budget, any spending is danger, and none is success (through NaN). |
| Dashboard.DisplayedBudgets | src/pages/Dashboard.tsx:31-36 | The four displayed categories are warning, danger, success and warning. |
| AuthPage.PasswordPrecheck | src/pages/Auth.tsx:70-86 | The pre-check passes exactly for matching passwords of at least 6 characters. A mismatch is reported before length. |
| AuthPage.MapMessage | src/pages/Auth.tsx:44-46 | The known Supabase message is replaced by its Spanish text, and any other message is shown verbatim. |
| AuthPage.HandleLogin | src/pages/Auth.tsx:34-65 | Loading is set and then cleared. Only a clean return navigates to /dashboard, and every other outcome shows a destructive toast. An error message is mapped. |
| AuthPage.HandleSignup | src/pages/Auth.tsx:67-119 | `signUp` is called exactly when the pre-check passes, with the organization name as its role argument. A failed pre-check leaves loading untouched. Only success switches to the login tab. "User already registered" is mapped. |
| AuthPage.MismatchCheckedFirst | src/pages/Auth.tsx:70-86 | A mismatched short password reports the mismatch and does not call `signUp`. |
| AuthPage.SixCharactersSuffice | src/pages/Auth.tsx:79-91 | Exactly six matching characters reach `signUp`. |
| AuthPage.LoadingEndsFalse | src/pages/Auth.tsx:62-64 | `isLoading` is false after every handler run. |
| AcceptInvitation.Load | src/pages/AcceptInvitation.tsx:27-53 | A missing or empty token shows an error and goes to /auth without a lookup. Otherwise the token is looked up, and the invitation is kept exactly when the lookup neither errs nor comes back empty; any failure goes to /auth with a destructive toast. |
| AcceptInvitation.Register | src/pages/AcceptInvitation.tsx:55-109 | `signUp` is called exactly when the pre-check passes, with the invitation's e-mail and the default role. A failed pre-check shows its message in a destructive toast and leaves loading untouched. Success goes to /auth, and an error is shown verbatim. |
| AcceptInvitation.SignsUpInvitedAddress | src/pages/AcceptInvitation.tsx:79-85 | The e-mail signed up is always the invitation's, and the role is "ADMIN". |

## Left out

- CORS headers. Only the preflight's immediate empty answer is modelled.
- The base64 conversion of the file (`btoa` over a spread of its bytes), and the range error that spread can raise for large files. The model treats reading the file as always succeeding.
- The Gemini request itself: the URL, the prompt and the response schema sent. Only the reply is modelled.
- `JSON.parse` and the engine's JSON reading of the response. They are parameters or outcomes.
- Logging through `console`.
- Floating point. Amounts are exact reals, so artefacts such as `Math.round(1.005 * 100)` are not reproduced.
- Number formatting (`String(n)`, `toLocaleString`, `toFixed`). It is a parameter.
- `Number(string)` for hexadecimal, binary, octal and `Infinity` literals. These give NaN in the model.
- ExtractHandler.Handle: an unset `SUPABASE_URL` or `SUPABASE_ANON_KEY` makes the client constructor throw before the identity check, into the catch-all 500 (index.ts:49-53 and 242-251). The environment here has no such flag. This case can be expressed only as an identity call that throws, which records a call the source never makes.
- Numbers.ParseFloat: a text starting with `Infinity`, `+Infinity` or `-Infinity` gives NaN here, where `parseFloat` gives an infinity, because the form's amount is a real. The expense form stores 0 for it instead of an infinite amount.
- Values.ToNumber: the `Infinity` string literals give NaN, not an infinity, for the reason above.
- Values.ToStr: gives a printed form even for a value whose conversion throws (`ConversionThrows`). The extraction tests `ConversionThrows` before it converts.
- DataTable.FilterRows: a cell with no primitive form (an object with its own `toString` field) would make `String` throw and break the render. Table rows come from typed database columns, and the search over a row's values is modelled without their order, so this throw is not modelled.
- DataTable.CellText: the same throw is not modelled, for the same reason.
- Non-ASCII case folding in `toLowerCase`.
- Lengths are counted in characters, not UTF-16 code units.
- Extraction.Clean: the TypeError's message is the placeholder "TypeError", not the engine's wording.
- zod's e-mail and UUID formats. They are the predicates of `Validators`.
- Non-string or missing inputs to the zod schemas (type errors). Every field is given with its declared type.
- The Supabase wrappers `signUp`, `signIn`, `signOut`, `getCurrentUser`, `getProfile` and `updateProfile`. They are foreign calls, represented by their outcome; only the arguments `signUp` receives are modelled.
- DataTable.SortRows: stability is not proved, because JavaScript's sort need not be stable for comparators that are not consistent. The sort is modelled as a stable insertion sort.
- DataTable.SortedDataOrdered: orderedness is proved only when the cell comparison is a strict partial order. JavaScript's `<` on mixed values is not one. The language fixes the result of `sort` only for a consistent comparator, that is, one from a strict weak order; for any other the engine's order is unspecified, and the model's insertion sort is one possible order.
- DOM focus, event listeners, React rendering and navigation side effects. They appear only as values in the records the handlers return.
- `getAccessibleLabel` and `announceToScreenReader`. These are DOM-only helpers.
- The Auth page's redirect of an already signed-in user, and its switch to the login tab through the DOM. The switch is recorded as a flag.
- The pricing and feature text of the Auth page, and every other presentational component.
