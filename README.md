# Shared-expense tracker: balances, splits, URLs and receipt scans in Dafny

This project models the deterministic logic of a shared-expense tracker and
proves properties of it. Groups of users log expenses and settlements. The
app shows each member's balance and builds expense splits in a dialog. It
fills URL templates for its API, and it turns a receipt-scanning model's JSON
reply into an invoice record.

Four pieces are modelled:

- **GroupDetails** (`group_details.dfy`): the group page's `balances` record.
  - It starts every member at 0.
  - Each expense credits its payer with the full amount and debits every
    member `amount / members.length`.
  - Each settlement credits its sender and debits its receiver, but only for
    ids that are already keys.
  - The page then shows a row per member with a "+"/"€" amount and a
    "Settled up" / "gets back" / "owes" caption.
  - The three `forEach` loops are methods proved against fold functions.
  - The proved properties: conservation, order independence, the keys of the
    result, and a worked example.
- **AddExpenseDialog** (`add_expense_dialog.dfy`): the per-member split rows
  of the "add expense" dialog.
  - Covered: the initial rows, toggling a member, and editing a percentage or
    a custom amount.
  - Covered: `calculateSplits` in equal, percentage and custom mode.
  - Covered: the ordered refusal checks of `handleSubmit`.
  - The form state is a class whose methods update its fields.
- **Routes** (`routes.dfy`): the API path templates and `buildUrl`, which
  replaces the first `:key` of the url for each parameter entry in turn.
- **InvoiceScan** (`invoice.dfy`): the data-URL prefix of an uploaded image,
  and the normalisation of the parsed reply.
  - The amount is sanitised.
  - Missing fields get `||` defaults.
  - Unreadable replies give a fallback record.

Three support modules model the JavaScript primitives the code relies on:

- **JsText** (`js_text.dfy`): `indexOf`/`includes`, `String.prototype.replace`
  with a string pattern (first occurrence only, with the `$$ $& $` $'` patterns
  of the replacement), `trim`'s white space, and the decimal text of an integer.
- **JsNumber** (`js_number.dfy`):
  - `parseFloat`: the longest decimal prefix after white space.
  - `Number()`: the whole trimmed text, including `0x`/`0o`/`0b`.
  - `parseFloat(s) || 0`.
  - `toFixed(2)`: rounds |x| to the nearest cent with ties upward, and writes a
    `-` whenever x < 0, so `-0.00` can appear.
  - Numbers are exact rationals (`real`), and NaN is `None`.
- **Sums** (`sums.dfy`): sums of a map's values, and a left fold with its
  permutation lemma.

Facts about the code that the model keeps as they are:

- The balance loop does not look at an expense's persisted splits. It debits
  every member an equal share of `amount / members.length`
  (`client/src/pages/GroupDetails.tsx:88-90`).
- The balances are guaranteed to sum to zero when there is at least one
  member and both parties of every settlement already have a balance
  (`GroupDetails.BalancesSumToZero`). A settlement naming anyone else moves
  money on one side only (`GroupDetails.OneSidedSettlement`).
- The page computes balances only. No debt simplification exists in the code
  (`client/src/pages/GroupDetails.tsx:74-75`).
- Equal-mode splits are each rounded to the cent, so they need not add up to
  the expense amount: 10 split three ways gives three splits of 3.33
  (`AddExpenseDialog.EqualSplitKeepsRemainder`).
- The code works on IEEE doubles, not exact money. The model uses exact
  rationals.

## Model

| member | source | states |
|---|---|---|
| GroupDetails.EnsureKey | client/src/pages/GroupDetails.tsx:85 | a falsy or missing balance becomes 0 and any other balance is kept; every other key keeps its value, and the key set gains exactly that id |
| GroupDetails.InitialBalances | client/src/pages/GroupDetails.tsx:78-80 | the keys are exactly the members, every value 0 |
| GroupDetails.DebitMembersKeys | client/src/pages/GroupDetails.tsx:91-94 | the member loop adds every member as a key and nobody else |
| GroupDetails.ExpenseStepKeys | client/src/pages/GroupDetails.tsx:82-95 | an expense adds its payer and the members as keys, nobody else |
| GroupDetails.SettlementStep | client/src/pages/GroupDetails.tsx:97-102 | a settlement never adds or removes a key |
| GroupDetails.DebitMembersAt | client/src/pages/GroupDetails.tsx:90-94 | each user loses one share per time they are listed as a member |
| GroupDetails.ExpenseStepAt | client/src/pages/GroupDetails.tsx:82-95 | the payer gains the full amount; every member loses `amount / members.length`, the payer included |
| GroupDetails.SettlementStepAt | client/src/pages/GroupDetails.tsx:97-102 | an existing key gains the amount if it is the sender and loses it if it is the receiver |
| GroupDetails.ComputeBalances | client/src/pages/GroupDetails.tsx:76-102 | the three loops compute exactly the fold `BalancesOf` of members, expenses and settlements |
| GroupDetails.ApplyExpense | client/src/pages/GroupDetails.tsx:82-95 | one pass of the expense loop is one `ExpenseStep` |
| GroupDetails.ChargeMembers | client/src/pages/GroupDetails.tsx:91-94 | the inner loop debits each listed member the split amount, as `DebitMembers` |
| GroupDetails.ApplySettlement | client/src/pages/GroupDetails.tsx:97-102 | one pass of the settlement loop is one `SettlementStep` |
| GroupDetails.AfterExpensesKeys | client/src/pages/GroupDetails.tsx:78-95 | after the expense loop the keys are the members plus the payers |
| GroupDetails.SettlementsKeepKeys | client/src/pages/GroupDetails.tsx:97-102 | any number of settlements keeps the key set |
| GroupDetails.BalancesOf | client/src/pages/GroupDetails.tsx:76-102 | the final record has exactly the members and the payers as keys |
| GroupDetails.NoActivity | client/src/pages/GroupDetails.tsx:78-80 | with no expenses or settlements every member is present at 0 and nobody else is |
| GroupDetails.ExpenseStepsCommute | client/src/pages/GroupDetails.tsx:82-95 | two expenses give the same record in either order |
| GroupDetails.SettlementStepsCommute | client/src/pages/GroupDetails.tsx:97-102 | two settlements give the same record in either order |
| GroupDetails.OrderIrrelevant | client/src/pages/GroupDetails.tsx:82-102 | permuting the expense list or the settlement list leaves the balances unchanged |
| GroupDetails.EnsureKeySum | client/src/pages/GroupDetails.tsx:85 | adding a zero key does not change the total |
| GroupDetails.DebitMembersSum | client/src/pages/GroupDetails.tsx:91-94 | the member loop takes one share per listed member out of the total |
| GroupDetails.ExpenseStepSum | client/src/pages/GroupDetails.tsx:82-95 | with at least one member an expense credits exactly what it debits |
| GroupDetails.SettlementStepSum | client/src/pages/GroupDetails.tsx:97-102 | a settlement changes the total by +amount if the sender is a key and -amount if the receiver is |
| GroupDetails.AfterExpensesSum | client/src/pages/GroupDetails.tsx:78-95 | with at least one member the balances sum to 0 after the expense loop |
| GroupDetails.ZeroSum | client/src/pages/GroupDetails.tsx:78-80 | the starting record sums to 0 |
| GroupDetails.SettlementsSum | client/src/pages/GroupDetails.tsx:97-102 | settlements between existing keys keep the total |
| GroupDetails.BalancesSumToZero | client/src/pages/GroupDetails.tsx:76-102 | conservation: with members, and both parties of every settlement a member or payer, the balances sum to exactly 0 |
| GroupDetails.OneSidedSettlement | client/src/pages/GroupDetails.tsx:100-101 | a settlement to someone without a balance credits the sender only and raises the total |
| GroupDetails.TwoMemberExample | client/src/pages/GroupDetails.tsx:76-102 | alice pays 30 for alice and bob: +15 / -15; bob then settles 15 to alice: both 0 |
| GroupDetails.DisplayedUsers | client/src/pages/GroupDetails.tsx:232-234 | a row is shown for a user iff they have a balance and are a member |
| GroupDetails.EveryMemberDisplayed | client/src/pages/GroupDetails.tsx:232-234 | exactly the members get rows, whatever was spent or settled |
| GroupDetails.FormerMemberHidden | client/src/pages/GroupDetails.tsx:232-234 | a payer who is not a member has a balance but no row |
| GroupDetails.StatusOf | client/src/pages/GroupDetails.tsx:235-236 | "Settled up" iff \|b\| < 0.01, "gets back" iff b >= 0.01, "owes" iff b <= -0.01 |
| GroupDetails.AmountText | client/src/pages/GroupDetails.tsx:252 | a positive balance is "+€" then `toFixed(2)`, any other balance "€" then `toFixed(2)` |
| GroupDetails.RowOf | client/src/pages/GroupDetails.tsx:250-256 | a row carries its user and the caption of the balance's status |
| GroupDetails.UnsettledShowsCents | client/src/pages/GroupDetails.tsx:250-255 | a balance not settled up shows a non-zero cent amount whose sign matches "gets back" / "owes" |
| GroupDetails.TinyCreditShowsPlus | client/src/pages/GroupDetails.tsx:252 | a credit under half a cent shows "+€0.00" and "Settled up" |
| GroupDetails.TinyDebtShowsMinusZero | client/src/pages/GroupDetails.tsx:252 | a debt under half a cent shows "€-0.00" and "Settled up" |
| AddExpenseDialog.Filter | client/src/components/AddExpenseDialog.tsx:104 | `filter` keeps exactly the elements that pass and adds none |
| AddExpenseDialog.FilterAppend | client/src/components/AddExpenseDialog.tsx:94 | filtering a concatenation filters each part and keeps their order |
| AddExpenseDialog.FilterCounts | client/src/components/AddExpenseDialog.tsx:94 | each passing element is kept as many times as it occurs, and each failing one is dropped |
| AddExpenseDialog.FilterSingle | client/src/components/AddExpenseDialog.tsx:104 | a one-element array keeps its element iff it passes |
| AddExpenseDialog.IncludedCount | client/src/components/AddExpenseDialog.tsx:67 | the included count is at most the number of rows |
| AddExpenseDialog.NoneIncluded | client/src/components/AddExpenseDialog.tsx:67-68 | the included count is 0 iff no row is included |
| AddExpenseDialog.IncludedCountSnoc | client/src/components/AddExpenseDialog.tsx:67 | appending a row adds 1 to the count iff that row is included |
| AddExpenseDialog.TotalPercentageBounds | client/src/components/AddExpenseDialog.tsx:119 | with no negative percentage the total is non-negative and at least each row's percentage |
| AddExpenseDialog.TotalCustom | client/src/components/AddExpenseDialog.tsx:120 | with no readable custom amount the total is 0; with no negative amount it is non-negative |
| AddExpenseDialog.Included | client/src/components/AddExpenseDialog.tsx:94 | the included rows are exactly the rows whose flag is set |
| AddExpenseDialog.TotalCustomSkipsUnparsed | client/src/components/AddExpenseDialog.tsx:120 | a custom amount that is NaN adds 0 to the custom total |
| AddExpenseDialog.InitialRows | client/src/components/AddExpenseDialog.tsx:54-59 | one row per member |
| AddExpenseDialog.InitialRowsState | client/src/components/AddExpenseDialog.tsx:53-61 | each member starts included with percentage `100 / members.length` and no custom amount; all are counted, and the percentages total 100 |
| AddExpenseDialog.AllIncluded | client/src/components/AddExpenseDialog.tsx:67 | rows that are all included are all counted |
| AddExpenseDialog.Flipped | client/src/components/AddExpenseDialog.tsx:64-66 | the map keeps the number of rows |
| AddExpenseDialog.Renormalised | client/src/components/AddExpenseDialog.tsx:70-73 | the rewrite keeps the number of rows |
| AddExpenseDialog.ToggledRows | client/src/components/AddExpenseDialog.tsx:63-76 | a toggle keeps the number of rows |
| AddExpenseDialog.ToggleFlags | client/src/components/AddExpenseDialog.tsx:63-66 | only the rows of the toggled user change their flag; ids and custom amounts stay |
| AddExpenseDialog.ToggleTwiceRestoresFlags | client/src/components/AddExpenseDialog.tsx:63-66 | toggling the same user twice restores every flag |
| AddExpenseDialog.SameFlagsSameCount | client/src/components/AddExpenseDialog.tsx:67 | the included count depends only on the flags |
| AddExpenseDialog.RenormalisedTotal | client/src/components/AddExpenseDialog.tsx:70-73 | after the rewrite the percentages total one share per included row |
| AddExpenseDialog.ToggleShares | client/src/components/AddExpenseDialog.tsx:67-74 | with k >= 1 included after a toggle, included rows hold 100/k and the rest 0 |
| AddExpenseDialog.ToggleTotalsHundred | client/src/components/AddExpenseDialog.tsx:67-74 | with someone included after a toggle, the percentages total 100 |
| AddExpenseDialog.ToggleNoneIncluded | client/src/components/AddExpenseDialog.tsx:67-75 | a toggle that leaves nobody included changes no percentage |
| AddExpenseDialog.PercentageInput | client/src/components/AddExpenseDialog.tsx:80 | unreadable percentage input becomes 0, readable input its value |
| AddExpenseDialog.WithPercentage | client/src/components/AddExpenseDialog.tsx:78-82 | editing a percentage keeps the number of rows |
| AddExpenseDialog.WithCustomAmount | client/src/components/AddExpenseDialog.tsx:84-88 | editing a custom amount keeps the number of rows |
| AddExpenseDialog.TotalPercentageUniform | client/src/components/AddExpenseDialog.tsx:119 | n rows of percentage p total n copies of p |
| AddExpenseDialog.TotalPercentageUpdate | client/src/components/AddExpenseDialog.tsx:119 | replacing one row moves the total by the difference |
| AddExpenseDialog.UpdatePercentageEffect | client/src/components/AddExpenseDialog.tsx:78-82 | every row of the user gets the parsed percentage, and every other row is unchanged |
| AddExpenseDialog.UpdatePercentageTotal | client/src/components/AddExpenseDialog.tsx:78-82 | for a user with exactly one row, only that row changes and the total moves by the difference |
| AddExpenseDialog.UpdateCustomAmountEffect | client/src/components/AddExpenseDialog.tsx:84-88 | only the user's rows get the new custom amount; all others are unchanged |
| AddExpenseDialog.Selected | client/src/components/AddExpenseDialog.tsx:93-116 | a row is paid iff it is included (equal), has percentage > 0 (percentage), or has a custom amount parsing above 0 (custom) |
| AddExpenseDialog.SplitOf | client/src/components/AddExpenseDialog.tsx:96-115 | a split carries the row's user id |
| AddExpenseDialog.PercentOf | client/src/components/AddExpenseDialog.tsx:107 | 100% of a total is the total, 0% or a total of 0 is 0, and a percentage in [0, 100] of a non-negative total lies between 0 and the total |
| AddExpenseDialog.ShareOf | client/src/components/AddExpenseDialog.tsx:95-113 | in equal mode `count` shares make the total; in custom mode the share is the parsed custom amount |
| AddExpenseDialog.CalculateSplits | client/src/components/AddExpenseDialog.tsx:90-117 | one split per paid row, in roster order, with that row's user id |
| AddExpenseDialog.EqualSplitsSame | client/src/components/AddExpenseDialog.tsx:93-99 | equal mode pays exactly the included rows in order, all the same `toFixed(2)` of total / count |
| AddExpenseDialog.PercentageSplits | client/src/components/AddExpenseDialog.tsx:102-109 | percentage mode pays each row with percentage > 0, in order, `toFixed(2)` of total × percentage / 100 |
| AddExpenseDialog.CustomSplits | client/src/components/AddExpenseDialog.tsx:111-116 | custom mode pays each row whose custom amount parses above 0, in order, `toFixed(2)` of that amount |
| AddExpenseDialog.SplitReadsBack | client/src/components/AddExpenseDialog.tsx:95-115 | each split amount reads back as its share rounded to the nearest cent |
| AddExpenseDialog.AllIncludedSelected | client/src/components/AddExpenseDialog.tsx:94 | with all rows included, equal mode pays every row |
| AddExpenseDialog.TenThirds | client/src/components/AddExpenseDialog.tsx:95 | 10 / 3 is written "3.33" |
| AddExpenseDialog.EqualSplitKeepsRemainder | client/src/components/AddExpenseDialog.tsx:93-99 | 10 split three ways gives three "3.33" splits; the missing cent goes to nobody |
| AddExpenseDialog.SubmitOutcome | client/src/components/AddExpenseDialog.tsx:171-214 | silent return iff the description or amount is empty or non-numeric; each refusal iff its own check fails after the earlier ones pass; "no splits" iff every check passes and the mode's splits are empty; submitted iff every check passes and they are not, carrying those splits |
| AddExpenseDialog.Incomplete | client/src/components/AddExpenseDialog.tsx:173 | a non-empty description with a non-empty all-white-space amount is not refused by the first check |
| AddExpenseDialog.PositivePercentageRow | client/src/components/AddExpenseDialog.tsx:102-108 | a positive percentage total implies a row with a positive percentage |
| AddExpenseDialog.NoSplitsOnlyInCustomMode | client/src/components/AddExpenseDialog.tsx:177-206 | the "no splits" refusal can happen only in custom mode |
| AddExpenseDialog.NegativePercentageAccepted | client/src/components/AddExpenseDialog.tsx:185-208 | p% and (100-p)% with p > 100 pass the check, and the first member alone is charged p% of the total |
| AddExpenseDialog.NegativeRowsTotal | client/src/components/AddExpenseDialog.tsx:119 | rows of p% and (100-p)% total 100 whatever p is |
| AddExpenseDialog.NegativeRowDropped | client/src/components/AddExpenseDialog.tsx:103-104 | with p > 100, percentage mode pays only the first of the rows p% and (100-p)% |
| AddExpenseDialog.OneSelectedSplit | client/src/components/AddExpenseDialog.tsx:103-108 | with one paid row the splits are that row's split alone |
| AddExpenseDialog.BlankAmountSkipsCustomCheck | client/src/components/AddExpenseDialog.tsx:173-199 | an all-white-space amount passes `isNaN(Number(...))`, and the custom total check never refuses it |
| AddExpenseDialog.EmptyCustomHasNoSplits | client/src/components/AddExpenseDialog.tsx:193-206 | custom mode with nothing typed and total "0" is refused for having no splits |
| AddExpenseDialog.ExpenseForm.constructor | client/src/components/AddExpenseDialog.tsx:42-61 | the form starts empty in equal mode, with the initial rows of the members |
| AddExpenseDialog.ExpenseForm.ToggleMemberIncluded | client/src/components/AddExpenseDialog.tsx:63-76 | the flip and the in-place percentage loop give `ToggledRows`; the other fields are unchanged |
| AddExpenseDialog.ExpenseForm.UpdatePercentage | client/src/components/AddExpenseDialog.tsx:78-82 | the rows become `WithPercentage`; the other fields are unchanged |
| AddExpenseDialog.ExpenseForm.UpdateCustomAmount | client/src/components/AddExpenseDialog.tsx:84-88 | the rows become `WithCustomAmount`; the other fields are unchanged |
| AddExpenseDialog.ExpenseForm.HandleSubmit | client/src/components/AddExpenseDialog.tsx:171-214 | the chain of early returns yields exactly `SubmitOutcome` of the current form |
| AddExpenseDialog.ExpenseForm.OnCreated | client/src/components/AddExpenseDialog.tsx:216-228 | a created expense resets the fields and rebuilds the initial rows |
| Routes.ValueText | shared/routes.ts:118 | the text of an integer value has no `$` and no `:` |
| Routes.Placeholder | shared/routes.ts:117 | a placeholder is `:` followed by exactly the key |
| Routes.Substitute | shared/routes.ts:117-118 | one entry leaves a url without `:` unchanged |
| Routes.SingleEntry | shared/routes.ts:116-120 | a one-entry record is exactly one substitution |
| Routes.BuildUrl | shared/routes.ts:113-123 | the loop computes `BuildUrlOf`: the path for absent params, else each entry's substitution in order |
| Routes.NoParamsUnchanged | shared/routes.ts:113-122 | with params undefined or `{}` the path is returned unchanged |
| Routes.AbsentKeyUnchanged | shared/routes.ts:117 | an entry whose `:key` does not occur leaves the url unchanged |
| Routes.FirstPlaceholderOnly | shared/routes.ts:118 | only the first `:key` is replaced by the value; everything before and after it is kept |
| Routes.EntriesInOrder | shared/routes.ts:116-120 | the entries apply one after another, each to the url the previous ones left |
| Routes.NoColonUnchanged | shared/routes.ts:116-120 | a url without `:` is returned unchanged whatever the params |
| Routes.FillAfterPrefix | shared/routes.ts:117-118 | a placeholder after a colon-free prefix is replaced in place |
| Routes.FillTemplate | shared/routes.ts:113-123 | `buildUrl` of a one-placeholder template puts the value in the placeholder's place |
| Routes.ExpensesListShape | shared/routes.ts:55 | the expenses template is `/api/groups/` + `:groupId` + `/expenses` |
| Routes.ExpensesListShapeAtGroup | shared/routes.ts:55 | the same template also contains `:group` directly after `/api/groups/` |
| Routes.ExpensesListUrl | client/src/hooks/use-expenses.ts:9 | `{groupId: n}` on the expenses template gives `/api/groups/` + n + `/expenses` |
| Routes.PrefixKeyQuirk | shared/routes.ts:117-118 | a key `group` with value n rewrites the front of `:groupId`, giving `/api/groups/` + n + `Id/expenses` |
| Routes.DollarValueQuirk | shared/routes.ts:118 | a text value `$&` is expanded by `replace` to the placeholder itself, so the url is unchanged |
| InvoiceScan.ImageUrl | server/replit_integrations/invoice/index.ts:50 | the url always starts with `data:`; a data URL is kept and anything else gets the JPEG base64 prefix |
| InvoiceScan.ImageUrlIdempotent | server/replit_integrations/invoice/index.ts:50 | prefixing twice is prefixing once |
| InvoiceScan.Field | server/replit_integrations/invoice/index.ts:71-77 | a field is present iff the reply is an object that has it |
| InvoiceScan.Or | server/replit_integrations/invoice/index.ts:72-77 | `a \|\| d` is `a` when truthy, else `d` |
| InvoiceScan.Text | server/replit_integrations/invoice/index.ts:71 | `String` of null, a boolean or an object has no digit, `.` or `,` |
| InvoiceScan.ItemsText | server/replit_integrations/invoice/index.ts:71 | an array of nulls is written as its commas alone |
| InvoiceScan.KeepAmountChars | server/replit_integrations/invoice/index.ts:71 | the filter keeps only digits, `.` and `,` |
| InvoiceScan.KeepAllAmountChars | server/replit_integrations/invoice/index.ts:71 | text made only of digits, `.` and `,` is kept as it is |
| InvoiceScan.KeepAmountCharsCons | server/replit_integrations/invoice/index.ts:71 | the first character is kept iff it is a digit, `.` or `,`, and the rest is filtered the same way |
| InvoiceScan.KeepAmountCharsAppend | server/replit_integrations/invoice/index.ts:71 | filtering distributes over concatenation, so kept characters stay in order |
| InvoiceScan.NoAmountCharsEmpty | server/replit_integrations/invoice/index.ts:71 | text with no digit, dot or comma filters to empty |
| InvoiceScan.SanitiseAmount | server/replit_integrations/invoice/index.ts:71 | the sanitised amount contains only digits, `.` and `,` |
| InvoiceScan.FirstCommaOnly | server/replit_integrations/invoice/index.ts:71 | only the first comma becomes `.`; later commas remain |
| InvoiceScan.ReplaceFirstComma | server/replit_integrations/invoice/index.ts:71 | replacing `,` by `.` rewrites the first comma and keeps everything around it |
| InvoiceScan.NoCommaKept | server/replit_integrations/invoice/index.ts:71 | without a comma the sanitised amount is the filtered text |
| InvoiceScan.CurrencyCodeAmountEmpty | server/replit_integrations/invoice/index.ts:71 | `"EUR"` sanitises to the empty string, not `"0"` |
| InvoiceScan.PairText | server/replit_integrations/invoice/index.ts:71 | `String` of a two-element array joins the element texts with a comma |
| InvoiceScan.DecimalCommaToPoint | server/replit_integrations/invoice/index.ts:71 | `"12,50"` sanitises to `"12.50"` |
| InvoiceScan.ArrayAmountJoined | server/replit_integrations/invoice/index.ts:71 | an amount `[12, 50]` becomes `"12.50"` |
| InvoiceScan.Fallback | server/replit_integrations/invoice/index.ts:81-89 | the fallback has amount "0" and confidence 0 |
| InvoiceScan.Normalise | server/replit_integrations/invoice/index.ts:70-78 | the amount has only allowed characters; the confidence is always truthy, is the reply's when that is truthy, and is 0.5 otherwise |
| InvoiceScan.ScanResult | server/replit_integrations/invoice/index.ts:65-90 | a confidence of 0 only ever comes from the fallback record |
| InvoiceScan.MissingAmountIsZero | server/replit_integrations/invoice/index.ts:71 | a missing or falsy amount becomes "0" |
| InvoiceScan.FieldDefaults | server/replit_integrations/invoice/index.ts:72-76 | missing fields become "Receipt scan", today, "EUR", "Unknown", "other" |
| InvoiceScan.ZeroConfidenceDefaults | server/replit_integrations/invoice/index.ts:77 | a reported confidence of 0 becomes 0.5 |
| InvoiceScan.EmptyObjectDefaults | server/replit_integrations/invoice/index.ts:70-78 | `{}` gives every default |
| InvoiceScan.EmptyContentDefaults | server/replit_integrations/invoice/index.ts:65-78 | absent or empty content is read as "{}", so every default applies |
| InvoiceScan.ParseFailureFallback | server/replit_integrations/invoice/index.ts:79-89 | text `JSON.parse` rejects gives the fallback record |
| InvoiceScan.NullReplyFallback | server/replit_integrations/invoice/index.ts:68-89 | a reply of `null` throws on field access and gives the fallback record |
| JsText.IndexOf | shared/routes.ts:117 | `indexOf` finds the least occurrence at or after `from`, or reports none |
| JsText.IncludesIffOccurs | shared/routes.ts:117 | `includes` holds iff the pattern occurs somewhere |
| JsText.Expand | shared/routes.ts:118 | a replacement without `$` is inserted literally |
| JsText.Replace | shared/routes.ts:118 | an absent pattern leaves the text unchanged; a literal replacement changes the length by the difference of the two |
| JsText.ReplaceAbsent | shared/routes.ts:118 | replacing an absent pattern changes nothing |
| JsText.ReplaceFirstOnly | shared/routes.ts:118 | `replace` with a string pattern rewrites only the first occurrence |
| JsText.Trim | client/src/components/AddExpenseDialog.tsx:173 | the trimmed text neither starts nor ends with white space |
| JsText.TrimUnspaced | client/src/components/AddExpenseDialog.tsx:173 | text without white space at its ends is its own trim |
| JsText.NatText | shared/routes.ts:118 | the decimal text of a natural number is digits without a leading zero |
| JsText.NatTextValue | shared/routes.ts:118 | the decimal text of n reads back as n |
| JsText.IntText | shared/routes.ts:118 | an integer's text starts with `-` iff it is negative, and has no `$` or `:` |
| JsNumber.ScanUnsigned | client/src/components/AddExpenseDialog.tsx:91 | a decimal literal is found iff the text starts with a digit or a dot followed by a digit; its value is non-negative |
| JsNumber.ParseFloat | client/src/components/AddExpenseDialog.tsx:91 | `parseFloat` is a number only when the text holds a digit |
| JsNumber.ParseFloatOrZero | client/src/components/AddExpenseDialog.tsx:91 | `parseFloat(s) \|\| 0` is 0 for NaN and the parsed value otherwise |
| JsNumber.NumberValue | client/src/components/AddExpenseDialog.tsx:173 | `Number()` of blank text is 0 |
| JsNumber.BlankText | client/src/components/AddExpenseDialog.tsx:173-175 | blank text is 0 to `Number()` but NaN to `parseFloat` |
| JsNumber.ParseNatText | client/src/components/AddExpenseDialog.tsx:173-175 | both `parseFloat` and `Number()` read a natural number's text as that number |
| JsNumber.Abs | client/src/components/AddExpenseDialog.tsx:187 | `Math.abs` is non-negative and equals x or -x |
| JsNumber.CentsOfMagnitude | client/src/components/AddExpenseDialog.tsx:95 | the cent count of \|x\| is the integer nearest to 100·\|x\|, ties upward |
| JsNumber.RoundCents | client/src/components/AddExpenseDialog.tsx:95 | the cent count of x is the integer nearest to 100·x, ties away from zero |
| JsNumber.RoundWholeCents | client/src/components/AddExpenseDialog.tsx:115 | an amount in whole cents is unchanged by rounding |
| JsNumber.RoundCentsOdd | client/src/pages/GroupDetails.tsx:252 | rounding is symmetric about zero |
| JsNumber.ToFixed2Shape | client/src/components/AddExpenseDialog.tsx:95 | `toFixed(2)` text is an optional `-`, digits, a point and two digits |
| JsNumber.ToFixed2Whole | client/src/components/AddExpenseDialog.tsx:95 | a whole number is written with its digits and ".00" |
| JsNumber.ToFixed2 | client/src/components/AddExpenseDialog.tsx:95 | `toFixed(2)` text has at least four characters, starts with `-` iff x < 0, and has its point third from the end |
| JsNumber.ScanSignedCents | client/src/components/AddExpenseDialog.tsx:95 | a signed cent text scans to its end as the amount it denotes |
| JsNumber.ScanPointDecimal | client/src/components/AddExpenseDialog.tsx:91 | digits, a point and digits scan to the end as the integer part plus the fraction |
| JsNumber.CentsTextValue | client/src/components/AddExpenseDialog.tsx:95 | the integer part and the two cent digits of n cents denote n / 100 |
| JsNumber.ScanCentsText | client/src/components/AddExpenseDialog.tsx:95 | an unsigned cent text scans to its end as the amount it denotes |
| JsNumber.ParseToFixed2 | client/src/components/AddExpenseDialog.tsx:95 | `parseFloat(x.toFixed(2))` is x rounded to the nearest cent |
| JsNumber.NumberOfToFixed2 | client/src/components/AddExpenseDialog.tsx:95 | `Number(x.toFixed(2))` is x rounded to the nearest cent |
| Sums.EqualShares | client/src/pages/GroupDetails.tsx:90 | n shares of x / n make x, for any n > 0 |
| JsNumber.ToFixed2Ends | client/src/components/AddExpenseDialog.tsx:95 | `toFixed(2)` text has no white space at its ends and no radix prefix |

## Left out

- JsNumber.ParseFloat: the `Infinity` literal is not modelled; text starting with it reads as NaN here.
- JsNumber.NumberValue: the `Infinity` literal is not modelled; text holding it reads as NaN here.
- JsNumber.ToFixed2: values of 1e21 and above are not modelled. `toFixed` writes those in exponent form.
- IEEE doubles are left out. All amounts, balances and percentages are exact rationals, so binary rounding artefacts (for example `0.1 + 0.2`) and NaN balances do not arise.
- Routes.ValueText: `String(value)` is modelled for text and integers only. Non-integral and infinite values, reachable from a typed page URL such as `/groups/1.5` through `Number(params.id)` (client/src/pages/GroupDetails.tsx:41), are not modelled, because `String` of a double is not modelled.
- Routes.BuildUrl: the order of `Object.entries` is taken as the given entry list. The rule that puts integer-like keys first is not modelled.
- InvoiceScan.Text: `String` of a number is a parameter (`show`). The shortest round-trip formatting of doubles is not modelled.
- GroupDetails: `Object.entries(balances)` order is not modelled. The rows are described as a set of users.
- AddExpenseDialog.ExpenseForm.ToggleMemberIncluded: rows are values. The in-place write to row objects that the previous state shares (lines 70-73) is modelled as building new rows, so that aliasing is not captured.
- AddExpenseDialog.ExpenseForm: the effect that rebuilds the rows whenever `members` changes (lines 53-61) is not modelled, because a form here has fixed members; the constructor builds the rows once. The empty row list the component holds before that effect first runs is not modelled either.
- AddExpenseDialog: the JSX, the toasts, `open`/`isScanning` state, and the file-reading and scan flow (lines 122-169) are UI and I/O.
- AddExpenseDialog: `mutate` itself is not modelled. Its `onSuccess` reset is `ExpenseForm.OnCreated`, and `onError` only shows a toast.
- InvoiceScan: the OpenAI request, `JSON.parse` and `new Date()` are external calls. They enter as the parameters `content`, `parse` and `today`, and the logging is dropped.
- InvoiceScan: the `/api/scan-invoice` Express handler (lines 93-109) is request plumbing.
- server/routes.ts and server/storage.ts are not part of this model. They hold HTTP handlers and database queries.
- shared/schema.ts is not part of this model beyond its user id type, which the module Schema declares as text. Its table declarations are left out.
- The client data hooks are fetch calls with cache invalidation and are not part of this model. Only their use of `buildUrl` on the expenses template appears, as an example.
