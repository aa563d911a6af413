# Spentify core in Dafny

Spentify is a personal expense tracker. A signed-in user records expenses, sees
aggregate statistics (total, average per day with expenses, highest and lowest
expense) and receives spending insights from a language model, with fixed
offline output when no key is configured or the model call fails.

This project models the logic of that application:

- **`addExpenseRecord`**: the ordered validation chain, then the date step and
  the write of the new record.
  - The date step is `split('-')`, then `parseInt`, then `Date.UTC` at noon,
    then `toISOString`.
- **`getUserRecord` and `getBestWorstExpense`**: the aggregates, their 0/0
  sentinel for an empty list, and their error results.
- **The statistics panel**: the guarded average, the day count and the
  "No data" tiles.
- **`checkUser`**: the find-or-create procedure over the user table.
- **The insight module**:
  - the key gate;
  - the mock cards;
  - code-fence stripping;
  - normalisation of the parsed insights;
  - the fallback card;
  - category snapping;
  - the answer to a question.

Layout:

- **Store.** The Prisma tables become the class `Store.Database`. It holds
  sequences of `User` and `Record` rows and two id counters. Its invariant
  `Consistent` covers:
  - the unique constraints;
  - fresh ids;
  - every stored record passing the add action's checks;
  - every record having an owner.
- **Methods over the store.** `CheckUser.CheckUser` and
  `AddExpense.AddExpenseRecord` change the store. Each states its whole new
  state for each path through the source.
- **Read-only actions.** These are functions over snapshots of the tables.
- **JavaScript helpers.** `trim`, `split`, UTF-16 `length`, `parseInt`,
  `toFixed(2)` and the date arithmetic of `Date.UTC` (ECMA-262 section 21.4)
  are written out. They live in `JsText`, `JsNumber` and `Dates`.
- **External inputs.** Whatever comes from outside becomes a parameter:
  - the session's subject id;
  - the identity provider's profile;
  - the model's reply;
  - `JSON.parse`;
  - the clock;
  - the value `parseFloat` gives;
  - whether a store write throws.

Three behaviours of the code that a reader might not expect:

- The key gate looks only at `OPENROUTER_API_KEY`. The client, however, falls
  back to `OPENAI_API_KEY`, so a configuration holding only the OpenAI key
  still gets the mock cards (`Ai.GateIgnoresOpenAiKey`).
- A parsed array whose elements are numbers, strings, arrays or objects without
  the expected fields is not a failure. Each such element becomes an insight
  made of the default fields. Only a `null` element, which makes property
  access throw, leads to the fallback card.
- The figure shown as "days with expenses" counts records with a positive
  amount, not distinct dates (`UserRecord.DaysCountRecords`).

## Model

| member | source | states |
|---|---|---|
| JsText.TrimStart | app/actions/addExpenseRecord.ts:37 | the result is a suffix of the input, what was removed is all white space, and the result does not start with white space |
| JsText.TrimEnd | app/actions/addExpenseRecord.ts:37 | the result is a prefix of the input, what was removed is all white space, and the result does not end with white space |
| JsText.Trim | app/actions/addExpenseRecord.ts:37 | the result has no white space at either end and is no longer than the input |
| JsText.TrimPadded | app/actions/addExpenseRecord.ts:37-39 | trimming white space, then a trimmed body, then white space gives exactly the body |
| JsText.TrimStartSkipsSpace | app/actions/addExpenseRecord.ts:63 | white space put in front of a string is removed along with the string's own leading white space |
| JsText.TrimOfTrimmed | lib/ai.ts:125 | trimming is idempotent: a trimmed string is left unchanged |
| JsText.TrimEmptyIffAllSpace | lib/checkUser.ts:44 | trim gives the empty string if and only if the input is all white space |
| JsText.TrimmedBetween | lib/ai.ts:220 | a string that opens and closes with non-space characters is trimmed |
| JsText.Split | app/actions/addExpenseRecord.ts:61 | `split` returns at least one part and no part contains the separator |
| JsText.JoinSplit | app/actions/addExpenseRecord.ts:61 | joining the parts of a split with the separator restores the input |
| JsText.SplitJoin | app/actions/addExpenseRecord.ts:61 | splitting the join of separator-free parts gives back those parts |
| JsText.SplitPrefix | app/actions/addExpenseRecord.ts:61 | a separator-free prefix followed by the separator becomes the first part |
| JsText.Utf16Length | app/actions/addExpenseRecord.ts:47 | `length` counts UTF-16 code units: between one and two per character |
| JsText.Utf16LengthCounts | app/actions/addExpenseRecord.ts:47 | `length` is exactly the number of characters plus the number of characters outside the Basic Multilingual Plane |
| JsText.Utf16LengthBmp | app/actions/addExpenseRecord.ts:47 | `length` equals the number of characters if and only if the text lies inside the Basic Multilingual Plane |
| JsNumber.DigitRun | app/actions/addExpenseRecord.ts:63 | the longest prefix of digits in the radix: every character before it is a digit and the next one is not |
| JsNumber.ParseInt | app/actions/addExpenseRecord.ts:63 | `parseInt`: leading white space skipped, an optional sign, an optional `0x` prefix, then the digits; None stands for NaN (stated by the ParseInt lemmas below) |
| JsNumber.ParseIntSkipsSpace | app/actions/addExpenseRecord.ts:63 | leading white space does not change what `parseInt` reads |
| JsNumber.ParseIntSign | app/actions/addExpenseRecord.ts:63 | after the white space a '+' is dropped and a '-' negates the value read from the rest; NaN stays NaN |
| JsNumber.ParseIntNaN | app/actions/addExpenseRecord.ts:63 | `parseInt` gives NaN if and only if no digit of the radix follows the white space, the optional sign and the optional `0x` prefix |
| JsNumber.DigitRunOfRadix | app/actions/addExpenseRecord.ts:63 | a run of digits of the radix followed by a non-digit (or nothing) is read to its end and no further |
| JsNumber.ParseIntHex | app/actions/addExpenseRecord.ts:63 | after a `0x` prefix the digits are read in radix 16 up to the first non-hex character |
| JsNumber.ParseIntHexPiece | app/actions/addExpenseRecord.ts:61-63 | the piece "0x3" reads as 3, so a field such as "2024-0x3-01" passes the date step as 1 March |
| JsNumber.ParseIntSpacedPiece | app/actions/addExpenseRecord.ts:61-63 | the piece " 03" reads as 3, so a field such as "2024- 03-01" passes the date step |
| JsNumber.ParseIntSignedPiece | app/actions/addExpenseRecord.ts:61-63 | the piece "+01" reads as 1, so a field such as "2024-03-+01" passes the date step |
| JsNumber.ParseIntDecimalStart | app/actions/addExpenseRecord.ts:63 | `parseInt` on text that starts with a decimal digit and has no hex prefix reads the longest run of digits |
| JsNumber.ParseIntIgnoresTail | app/actions/addExpenseRecord.ts:63 | `parseInt` stops at the first non-digit, so "2024abc" reads as 2024 |
| JsNumber.ParseIntDigits | app/actions/addExpenseRecord.ts:63 | `parseInt` reads a run of decimal digits as the number they denote |
| JsNumber.ParseIntPadded | app/actions/addExpenseRecord.ts:63 | `parseInt` reads a zero-padded decimal back as its value |
| JsNumber.DecimalString | lib/ai.ts:53 | the rendering of a whole number is a non-empty run of decimal digits whose value is that number, with no leading zero unless the number is 0 |
| JsNumber.DecimalStringLength | app/actions/addExpenseRecord.ts:65 | a number below 10^k takes at most k digits |
| JsNumber.Padded | app/actions/addExpenseRecord.ts:65 | `padStart(width, '0')`: the length is the width or the digit count, whichever is larger; the leading positions are zeros followed by the plain rendering, and the value is the number |
| JsNumber.ToFixed2 | lib/ai.ts:53 | `toFixed(2)`: a minus sign for negative values, then the rendering of the magnitude (stated by RoundedCents and ToFixed2Cents) |
| JsNumber.RoundedCents | lib/ai.ts:53 | `toFixed(2)` rounds to the nearest hundredth, ties up |
| JsNumber.ToFixed2Cents | lib/ai.ts:53 | a whole number of hundredths prints exactly as whole part, point and two-digit remainder |
| Dates.DaysInMonth | app/actions/addExpenseRecord.ts:63 | every month has 28 to 31 days |
| Dates.Carry | app/actions/addExpenseRecord.ts:62-64 | day overflow and underflow move into the neighbouring months and give a real calendar date; a valid day is kept |
| Dates.YearLength | app/actions/addExpenseRecord.ts:63 | a leap year has 366 days and any other year 365 |
| Dates.CarryKeepsDayNumber | app/actions/addExpenseRecord.ts:62-64 | the date a day count lands on is that many days after the first of the month, so 2024-02-30 is 1 March |
| Dates.MakeDay | app/actions/addExpenseRecord.ts:63 | `Date.UTC` with a month index outside 0 to 11 carries whole years, then carries days |
| Dates.FromParts | app/actions/addExpenseRecord.ts:61-69 | any part that `parseInt` cannot read, or a date outside the time-value range, gives 'Invalid date format'; success is a calendar date within range |
| Dates.NormaliseDate | app/actions/addExpenseRecord.ts:57-69 | the date step succeeds only with a calendar date inside the time-value range, and otherwise fails with 'Invalid date format' |
| Dates.FromCalendarParts | app/actions/addExpenseRecord.ts:61-65 | parts forming a valid in-range date are taken as they are |
| Dates.DateFieldParts | app/actions/addExpenseRecord.ts:61 | splitting a YYYY-MM-DD field on '-' and `parseInt` on the pieces gives back year, month and day |
| Dates.CalendarDateKept | app/actions/addExpenseRecord.ts:57-65 | a valid YYYY-MM-DD date with a four-digit year normalises to the same day and prints as YYYY-MM-DDT12:00:00.000Z |
| Dates.TwoDigitYear | app/actions/addExpenseRecord.ts:63 | `Date.UTC` maps a year of 0 to 99 onto 1900 to 1999 |
| Dates.IsoYear | app/actions/addExpenseRecord.ts:65 | the year field of `toISOString()`: four digits for years 0 to 9999, otherwise a sign and at least six digits, always denoting the year |
| Dates.IsoNoon | app/actions/addExpenseRecord.ts:65 | the ISO string of noon UTC ends in T12:00:00.000Z and has 24 characters for years 0 to 9999 |
| Dates.FourDigitYearInRange | app/actions/addExpenseRecord.ts:63-65 | every date in years 100 to 9999 is within the time-value range |
| Categories.CategoryCapitalised | app/actions/addExpenseRecord.ts:52 | every category name starts with a capital letter |
| Categories.CategoryIsTrimmed | app/actions/addExpenseRecord.ts:52 | no category name carries white space, so trimming keeps it |
| Store.FindByClerkId | lib/checkUser.ts:12-16 | the lookup by subject id finds a row carrying that id, or there is none |
| Store.UserWithClerkId | lib/checkUser.ts:12-20 | the found row is a member of the table with that subject id; None exactly when no row has it |
| Store.FindByEmail | lib/checkUser.ts:30-34 | the lookup by email finds a row with that email, or there is none |
| Store.RecordsOf | app/actions/getUserRecord.ts:28-30 | the owner filter keeps exactly the records whose user id matches, each as many times as the table holds it, and drops all others |
| Store.Amounts | app/actions/getBestWorstExpense.ts:38 | the amounts list is position by position the records' amounts |
| Store.ResolveOwner | app/actions/addExpenseRecord.ts:71-88 | 'User not found' if and only if no subject id; 'Database user not found' if and only if no row carries it; otherwise the row with that id |
| Store.ReplaceUserKeepsConsistent | lib/checkUser.ts:38-47 | rewriting one row in place, same id and email and an unused subject id, keeps the store invariant |
| Store.AppendUserKeepsConsistent | lib/checkUser.ts:52-59 | appending a user with a fresh id, an email and an unused subject id and email keeps the store invariant |
| Store.AppendRecordKeepsConsistent | app/actions/addExpenseRecord.ts:92-100 | appending an acceptable record with a fresh id for an existing user keeps the store invariant |
| Aggregates.Sum | app/actions/getUserRecord.ts:32 | the `reduce` total, folded from the left from 0 (its properties are SumAppend, SumAtMost and SumAtLeast) |
| Aggregates.SumAppend | app/actions/getUserRecord.ts:32 | the total of two lists joined is the sum of their totals |
| Aggregates.CountPositive | app/actions/getUserRecord.ts:35-37 | the count is the number of positions holding a positive amount; it is at most the length, and equals it if and only if every amount is positive |
| Aggregates.CountPositiveAppend | app/actions/getUserRecord.ts:35-37 | the count over two lists joined is the sum of their counts |
| Aggregates.Max | app/actions/getBestWorstExpense.ts:41 | `Math.max` of a non-empty list is one of its elements and no element exceeds it |
| Aggregates.Min | app/actions/getBestWorstExpense.ts:42 | `Math.min` of a non-empty list is one of its elements and no element is below it |
| Aggregates.SumAtMost | app/actions/getUserRecord.ts:32 | a total of amounts each at most b is at most b times the count |
| Aggregates.SumAtLeast | app/actions/getUserRecord.ts:32 | a total of amounts each at least b is at least b times the count |
| Aggregates.MeanWithinBounds | components/ExpenseStats.tsx:17-20 | the mean of a non-empty list lies between any lower and upper bound of its elements |
| UserRecord.GetUserRecord | app/actions/getUserRecord.ts:10-43 | the error is exactly the owner lookup's ('User not found' without a subject id, 'Database user not found' without a matching row), else 'Database error' when the fetch throws, else none; the total is set if and only if there is no error, and the count likewise |
| UserRecord.UserRecordTotals | app/actions/getUserRecord.ts:32-37 | the total is the sum over the owner's records; the count is the number of those records with a positive amount, at most their number, equal if and only if all are positive |
| UserRecord.DaysCountRecords | app/actions/getUserRecord.ts:34-37 | when every stored amount is positive, the "days" figure is the number of the owner's records |
| UserRecord.NoRecordsGivesZero | app/actions/getUserRecord.ts:32-39 | no records gives a total of 0 over 0 records |
| BestWorst.GetBestWorstExpense | app/actions/getBestWorstExpense.ts:10-48 | the error is exactly the owner lookup's ('User not found' without a subject id, 'Database user not found' without a matching row), else 'Database error' when the fetch throws, else none; both amounts are set if and only if there is no error, and then worst is at most best |
| BestWorst.RangeOfOwned | app/actions/getBestWorstExpense.ts:38-44 | for an owner with records, best is the largest and worst the smallest of their amounts |
| BestWorst.BestWorstAreExtremes | app/actions/getBestWorstExpense.ts:38-42 | best and worst are amounts of the owner's records, and every amount lies between them |
| BestWorst.NoRecordsGivesZeroSentinel | app/actions/getBestWorstExpense.ts:34-36 | with no records the result is best 0 and worst 0 |
| BestWorst.ZeroMeansNoRecords | app/actions/getBestWorstExpense.ts:34-42 | when every stored amount is positive, best is 0 if and only if the owner has no records |
| ExpenseStats.ValidTotal | components/ExpenseStats.tsx:17 | a missing total counts as 0, a present one as itself |
| ExpenseStats.ValidDays | components/ExpenseStats.tsx:18-19 | the divisor is at least 1, is the count when that is positive, and 1 otherwise |
| ExpenseStats.TileFor | components/ExpenseStats.tsx:70 | a tile shows "No data" if and only if its value is undefined, and otherwise the amount |
| ExpenseStats.Stats | components/ExpenseStats.tsx:13-91 | the days figure is the guarded count (at least 1), the average times it is the guarded total, and the Highest and Lowest tiles show the range action's best and worst amounts or "No data" (lines 70 and 89-91) |
| ExpenseStats.FailedTotalShowsZero | components/ExpenseStats.tsx:13-20 | a failed total renders as an average of 0 based on 1 day |
| ExpenseStats.NoDataOnlyOnError | components/ExpenseStats.tsx:70-91 | the tiles say "No data" if and only if the range action failed |
| ExpenseStats.EmptyStoreShowsZeros | components/ExpenseStats.tsx:17-20 | a user without records sees average 0 over 1 day and tiles of 0 |
| ExpenseStats.AverageBetweenLowestAndHighest | components/ExpenseStats.tsx:17-91 | when every stored amount is positive, a user with records gets an average over their records, the largest and smallest of their amounts on the Highest and Lowest tiles, and an average between the two |
| CheckUser.PrimaryEmail | lib/checkUser.ts:23-27 | the first address is used, and is absent if and only if there is none or it is empty |
| CheckUser.DisplayName | lib/checkUser.ts:44 | the stored name is never empty and is trimmed |
| CheckUser.DisplayNameBothParts | lib/checkUser.ts:44 | two trimmed non-empty parts are joined by one space |
| CheckUser.DisplayNameFirstOnly | lib/checkUser.ts:55 | a first name alone is used without the joining space |
| CheckUser.DisplayNameLastOnly | lib/checkUser.ts:55 | a last name alone is used without the leading space |
| CheckUser.DisplayNamePadded | lib/checkUser.ts:44 | whatever the parts, when the joined text is white space around a trimmed non-empty body, the stored name is exactly that body |
| CheckUser.DisplayNameBlank | lib/checkUser.ts:44 | missing or blank parts give 'User' |
| CheckUser.AttachPrincipal | lib/checkUser.ts:38-47 | only the matched row changes: it takes the subject id, display name and image; the invariant is kept and the updated row is returned |
| CheckUser.CreateUser | lib/checkUser.ts:52-59 | exactly one row is appended under the next id with the subject id, email, display name and image; the invariant is kept and records do not change |
| CheckUser.CheckUser | lib/checkUser.ts:5-71 | no principal: null and no change; found by subject id: that row, no change; no email: null, no change; found by email: only that row's subject id, name and image change; otherwise one new row, or after a failed create the re-lookup (null) and no change; records never change |
| AddExpense.Message | app/actions/addExpenseRecord.ts:34-68 | the error text returned for each refused check |
| AddExpense.MessagesDistinct | app/actions/addExpenseRecord.ts:34-68 | different refusals return different error texts |
| AddExpense.ValidateExpense | app/actions/addExpenseRecord.ts:25-69 | a form that passes has every entry present, the trimmed text and category, the parsed amount within (0, 1,000,000], a length of at most 500 and a valid date; the form is rejected for a missing field exactly when an entry is absent or empty, and every other rejection names the check that failed |
| AddExpense.ValidationOrder | app/actions/addExpenseRecord.ts:25-69 | each check decides the outcome exactly when every earlier check passed: missing, amount, length, category, date |
| AddExpense.AllChecksPassAccepted | app/actions/addExpenseRecord.ts:25-69 | a form that passes every check is accepted with the trimmed text and category, the parsed amount and the normalised date |
| AddExpense.BlankDescriptionAccepted | app/actions/addExpenseRecord.ts:25-37 | a description of white space only passes and is stored as the empty string |
| AddExpense.PaddedCategoryAccepted | app/actions/addExpenseRecord.ts:39-55 | a category surrounded by white space is accepted as the bare name |
| AddExpense.InsertRecord | app/actions/addExpenseRecord.ts:90-107 | exactly one record is appended under a fresh id for the owner, and its fields are echoed with the date at noon UTC |
| AddExpense.AddExpenseRecord | app/actions/addExpenseRecord.ts:18-118 | validation errors, then the owner lookup's errors, then the create failure, each leave the store unchanged; success appends exactly the validated record and echoes it |
| JsonValues.Property | lib/ai.ts:143-147 | a field read on a non-null value is an object's own field, or undefined for anything else |
| JsonValues.OrElse | lib/ai.ts:143-147 | `v || d` keeps a truthy v and otherwise gives d, so a truthy default makes the result truthy |
| Ai.KeyMissing | lib/ai.ts:41-43 | the gate of both generators (also lib/ai.ts:216-218): the OpenRouter key is absent, empty or one of the two placeholders |
| Ai.TotalAmount | lib/ai.ts:45 | the `reduce` total of the expenses' amounts |
| Ai.ClientKey | lib/ai.ts:13 | the client's key is the OpenRouter key or the OpenAI key |
| Ai.GateIgnoresOpenAiKey | lib/ai.ts:41-43 | the gate ignores the OpenAI key; with no OpenRouter key the gate trips although the client would use the OpenAI key; past the gate the client uses the OpenRouter key |
| Ai.Distinct | lib/ai.ts:46 | the spread set holds every category once and nothing else, and is no longer than the list |
| Ai.DistinctKeepsAllIffNoDuplicates | lib/ai.ts:46 | the set is as long as the list if and only if no category repeats |
| Ai.DistinctNonEmpty | lib/ai.ts:46 | a non-empty list has at least one distinct category |
| Ai.MockInsights | lib/ai.ts:45-65 | exactly two cards, 'mock-1' of type info and 'mock-2' of type tip, both with confidence 1, the first quoting the total and the distinct-category count |
| Ai.MockDependsOnlyOnSummary | lib/ai.ts:45-53 | two expense lists with the same total and the same categories give the same mock cards |
| Ai.DistinctAsSet | lib/ai.ts:46 | a list without repeats is as long as the set of its elements |
| Ai.StripClosingFence | lib/ai.ts:129 | text not ending in a fence is left alone |
| Ai.Unfence | lib/ai.ts:126-134 | removing the opening fence (json-tagged first) and the closing fence never lengthens the text |
| Ai.StripFences | lib/ai.ts:125-134 | cleaning never lengthens the reply |
| Ai.StripFencesTrims | lib/ai.ts:125 | white space around the reply does not affect cleaning |
| Ai.UnfencedReplyOnlyTrimmed | lib/ai.ts:125-134 | a reply that does not open with a fence is only trimmed |
| Ai.JsonFencedReply | lib/ai.ts:126-129 | a json-tagged fence with any white space inside and around yields exactly the trimmed body |
| Ai.PlainFencedReply | lib/ai.ts:130-133 | an untagged fence yields the body, unless the body directly follows and starts with "json" |
| Ai.NotJsonTagged | lib/ai.ts:126-130 | such an untagged fence is not mistaken for a tagged one |
| Ai.NormaliseOne | lib/ai.ts:140-148 | the given id; type, title, message and confidence each keep the element's own field when it is truthy and otherwise take 'info', 'AI Insight', 'Analysis complete' and 0.8; the action is the element's own field or absent; so those four fields are truthy |
| Ai.InsightId | lib/ai.ts:142 | an insight id starts with "ai-" |
| Ai.InsightIdsDistinct | lib/ai.ts:142 | under one clock reading, different positions get different ids |
| Ai.Normalise | lib/ai.ts:140-149 | the map fails if and only if some element is null; otherwise it keeps length and order, element i is the normalisation of input element i, and its id is `ai-<clock>-<i>` |
| Ai.NormaliseIdempotent | lib/ai.ts:140-148 | a normalised insight written back as JSON normalises to itself, up to its id |
| Ai.NormaliseDefaults | lib/ai.ts:143-147 | a confidence of 0 becomes 0.8, and a non-object element gets every default and no action |
| Ai.HasContent | lib/ai.ts:117-122 | the reply passes the `!response` check: a reply whose content is present and not the empty string |
| Ai.GenerateExpenseInsights | lib/ai.ts:37-168 | behind the gate exactly the two mock cards; past it the outcome of the analysis of the reply |
| Ai.InsightsFromReply | lib/ai.ts:68-167 | the fallback card when the content is missing, the cleaned text does not parse, the result is not an array or an element is null; the normalised array when all succeed |
| Ai.InsightsFromItems | lib/ai.ts:137-166 | no array or a null element gives the fallback card; otherwise the result is the normalised array |
| Ai.NormalisedIsNotFallback | lib/ai.ts:142 | normalised insights are never the fallback card |
| Ai.FallbackIffFailure | lib/ai.ts:117-166 | the fallback card is returned if and only if the analysis fails |
| Ai.EmptyArrayGivesNoInsights | lib/ai.ts:137-151 | a reply that parses to an empty array gives no insights, not the fallback |
| Ai.SameCleanedSameInsights | lib/ai.ts:117-151 | two replies with content that clean to the same text give the same insights |
| Ai.FencedReplyCleansToBody | lib/ai.ts:125-134 | a fenced reply cleans to the same text as its bare body |
| Ai.FencedReplySameInsights | lib/ai.ts:124-151 | wrapping a non-empty reply in a fence and white space does not change the insights |
| Ai.Categorize | lib/ai.ts:170-209 | the result is always one of the seven categories; anything but 'Other' is the trimmed reply, and a reply that trims to a category is returned |
| Ai.CategorizePadded | lib/ai.ts:189-203 | a category name with white space around it is accepted as the bare name |
| Ai.CategorizeIsCaseSensitive | lib/ai.ts:201-203 | a trimmed reply starting with a lower-case letter, such as 'food', is not recognised and gives 'Other' |
| Ai.KeyMissingAnswer | lib/ai.ts:219-220 | the key-missing sentence is trimmed |
| Ai.GenerateAIAnswer | lib/ai.ts:211-273 | the three outcomes: the key-missing sentence behind the gate, the trimmed reply when there is content, and the apology otherwise; every answer is trimmed |
| Ai.BlankReplyGivesEmptyAnswer | lib/ai.ts:263-268 | a reply of white space only passes the emptiness check and gives the empty answer |

## Left out

- Floating point. Amounts are reals, so sums, averages and comparisons are exact. Rounding of IEEE doubles is not modelled.
- `parseFloat` itself. What it makes of the amount entry is an input of `AddExpense.ValidateExpense` (NaN, ±Infinity or a finite value).
- `JSON.parse` internals. Parsing is a function parameter from text to an optional JSON value.
- `toFixed(2)` for values of 1e21 and above, where JavaScript switches to exponent notation.
- `Date.now()`. The clock is a function parameter from the element index to a reading.
- The OpenAI/OpenRouter client, its HTTP calls, prompts, model settings and the `question` argument of `generateAIAnswer`. They only shape the reply, and each call is an input: a reply with optional content, or a failure.
- Logging (`console.log`, `console.error`).
- The Clerk calls `auth()` and `currentUser()`. They are inputs.
- Prisma internals. The tables are sequences in `Store.Database`. Lookups cannot throw in the model; only the writes named by a `createFails` flag, and the record fetch named by `fetchFails`, fail.
- Form entries that are `File` objects. Entries are optional strings.
- The concurrent create race that motivates the re-lookup in `checkUser`. The model is sequential, so the re-lookup sees the unchanged table and finds nothing.
- `revalidatePath` cache invalidation.
- AddExpense.AddExpenseRecord: `revalidatePath('/')` runs inside the `try` after the create (app/actions/addExpenseRecord.ts:109). If it threw, the action would return the unexpected-error message with the record already stored. The model has no such path, because `revalidatePath` is not modelled.
- Aggregates.Max and Aggregates.Min: `Math.max(...amounts)` and `Math.min(...amounts)` throw a RangeError when the spread exceeds the engine's argument limit (app/actions/getBestWorstExpense.ts:41-42). The action would then return 'Database error'. The model's Max and Min always succeed, because the engine limit is not modelled.
- `getRecords`, `deleteRecord` and all JSX rendering.
  - `ExpenseStats` rendering is reduced to the average, the day count and the tile contents. The rupee formatting of those numbers on the page is left out.
- The `Promise.all` fan-out in the statistics panel. Both results are inputs of `ExpenseStats.Stats`.
- ExpenseStats.ValidTotal: does not model a NaN total, which `record || 0` would also map to 0, because amounts are reals.
- JsText.Utf16Length: its own contract states only the bounds of one to two code units per character. The exact count is stated by the lemma `JsText.Utf16LengthCounts`. It is kept out of the function's contract because the store invariant mentions the length of every record, and the set it counts would weigh on every proof about the store.
- Dates.NormaliseDate: its own contract states only the success and error shapes. The unparseable-part case is stated by `Dates.FromParts`, which it calls on the three parts.
