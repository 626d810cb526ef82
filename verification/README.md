# Pocket Money Manager — a Dafny model of its bookkeeping rules

Pocket Money Manager is a personal finance tracker. A React frontend lists a
user's income and expense transactions, and an Express/MongoDB backend
stores them. This project models the small, pure rules that make up the
tracker's logic, and proves properties of each:

- **Aggregation.** These rules serve the Analytics page, the Dashboard and
  the Transactions page:
  - income and expense totals and the net balance;
  - the per-category expense map, with `'Other'` for a missing category, and
    the per-category income map;
  - the breakdown tables of the PDF report, ordered by amount, with a
    percentage column guarded against a zero total;
  - the CSV category rows;
  - the monthly buckets behind the trend chart, and the pie data;
  - the 5 and the 20 most recent transactions.

  Modules: `Ledger`, `Analytics`, `Dashboard`, with the helpers `Numbers`,
  `Dicts` and `Sorting`.
- **The transaction form** (`TransactionForm`):
  - the category list for each type;
  - submit validation and the record sent;
  - resetting the form;
  - loading a record for editing;
  - switching the type;
  - the AI category suggestion and how its answer is normalised;
  - the rows of the CSV export.
- **The language-model request loop** (`Retry`). At most three attempts; a
  retry only on 429 or 5xx; waits of 1000, 2000 and 4000 ms. The chat
  assistant (`Chatbot`), the spending analysis (`Analytics.GetAnalysis`) and
  the category suggestion all use it.
- **The backend's CORS origin check** (`Cors`). Each regular expression is
  written out as a string predicate.
- **How the frontend finds its API** (`ApiConfig`): the base URL, the
  health-check URL, and the error message shown for a failed request.
- **The backend's transaction handlers** (`TransactionStore`): list, get,
  create, update and delete, all guarded by ownership, over an in-memory
  collection.

**How JavaScript values are modelled.**
- Numbers are `Numbers.Num`, one of three values:
  - a whole number of minor units;
  - `NaN`;
  - `undefined`, kept apart from `NaN` because a stored `undefined` makes
    `toLocaleString` throw.
- Plain objects used as dictionaries are `Dicts.Dict`: a sequence of
  entries in insertion order.
- Dates are an ordered day index plus the short month name they display as.

**Parameters.** Whatever the code reads from outside becomes a parameter:
- the API key and environment variables;
- `window.location`;
- `parseFloat` and number formatting;
- the clock;
- fresh database ids;
- the replies of the remote endpoints.

## Model

| member | source | states |
|---|---|---|
| Numbers.Plus | frontend-code/src/components/Dashboard.jsx:42-48 | `a + b` is a number exactly when both sides are, and it is then their sum; it is never `undefined` |
| Numbers.AsNumber | frontend-code/src/components/Dashboard.jsx:76-79 | `0 + a` turns `undefined` into `NaN` and keeps numbers; adding `a` or `0 + a` to anything gives the same result |
| Numbers.SumOfDefined | frontend-code/src/components/Dashboard.jsx:42-48 | a `reduce` sum is a number exactly when every summand is; one `NaN` poisons it |
| Numbers.SumOfConcat | frontend-code/src/components/Dashboard.jsx:42-48 | the sum over a concatenation is the sum of the two sums |
| Numbers.SumOfPermutation | frontend-code/src/components/Dashboard.jsx:53-55 | a sum does not depend on the order of its summands (the dashboard sorts before it tallies) |
| Numbers.SumOfSameNumbers | frontend-code/src/components/Dashboard.jsx:76-79 | summands that agree once `undefined` is read as `NaN` give the same sum |
| Sorting.SortDesc | frontend-code/src/components/Dashboard.jsx:53-54 | sorting descending by a key is a permutation of the input, of the same length, in non-increasing key order |
| Sorting.SortStable | frontend-code/src/components/Dashboard.jsx:53-54 | the sort is stable: for every rank, the elements of that rank come out in their input order, so which same-day transactions the slice keeps is fixed |
| Sorting.SortKeepsSum | frontend-code/src/components/Analytics.jsx:1199-1200 | sorting leaves every sum over the elements unchanged |
| Sorting.Take | frontend-code/src/components/Dashboard.jsx:55 | `slice(0, n)` is the prefix of length `min(n, len)` |
| Sorting.TakeLast | frontend-code/src/components/Dashboard.jsx:71 | `slice(-n)` is the suffix of length `min(n, len)` |
| Sorting.TopN | frontend-code/src/components/Dashboard.jsx:53-55 | sort-then-slice returns at most `n` elements of the input, in order; nothing left out ranks above anything kept |
| Strings.Trim | frontend-code/src/components/chatbot.jsx:176 | `trim()` is the slice between the leading and the trailing white space, and it is empty exactly when the string is blank |
| Strings.ToLower | frontend-code/src/components/Transactions.jsx:1072-1074 | lower-casing keeps the length and maps each character on its own |
| Strings.Contains | frontend-code/src/components/Transactions.jsx:1074 | `includes` holds exactly when the needle occurs at some position |
| Strings.ReplaceAll | frontend-code/src/components/Transactions.jsx:893 | `replace(/,/g, ';')` changes every comma and nothing else |
| Strings.ReplaceSuffix | frontend-code/src/services/api.js:7 | `replace(/suffix$/, repl)` replaces the suffix when the string ends with it, so that putting the suffix back gives the original; otherwise the string is unchanged (also used at api.js:40) |
| Strings.Prefix | frontend-code/src/components/Analytics.jsx:1275 | `substring(0, n)` is the prefix of exactly `min(n, len)` characters |
| Dicts.Lookup | frontend-code/src/components/Analytics.jsx:932 | `obj[k]` is present exactly when `k` is a key, and it is then that key's entry |
| Dicts.Put | frontend-code/src/components/Analytics.jsx:933-935 | `obj[k] = v` makes `k` read `v`, keeps the key order, appends a new key at the end, and keeps keys distinct |
| Dicts.PutOther | frontend-code/src/components/Analytics.jsx:933-935 | `obj[k] = v` leaves every other key's entry as it was |
| Ledger.ZeroPlus | frontend-code/src/components/Dashboard.jsx:77-79 | `0 + t.amount` is the amount, read as `NaN` when it is missing |
| Ledger.OrDefault | frontend-code/src/components/Analytics.jsx:931 | `o \|\| d` is `o` when it is present and non-empty, else `d` |
| Ledger.OfKindMembers | frontend-code/src/components/Analytics.jsx:923-926 | `filter(t => t.type === k)` keeps exactly the transactions of type `k` |
| Ledger.OfKindMultiset | frontend-code/src/components/Analytics.jsx:923-926 | the filter keeps each transaction of type `k` as often as it occurs, and nothing else |
| Ledger.OfKindPermutation | frontend-code/src/components/Dashboard.jsx:53-55 | reordering the transactions reorders the filtered ones the same way |
| Ledger.OfKindConcat | frontend-code/src/components/Analytics.jsx:923-926 | filtering distributes over concatenation |
| Ledger.TotalOf | frontend-code/src/components/Analytics.jsx:1155-1160 | the type total with a missing amount counted as 0; `Ledger.TotalOfIsFilteredSum` proves it equal to the filtered `reduce` sum, and `Ledger.TotalOfNonzero` proves a non-zero total needs a transaction of that type |
| Ledger.NetBalance | frontend-code/src/components/Analytics.jsx:1161 | income total minus expense total; `Ledger.NetBalanceIsSignedTotal` proves it equal to the running sum of signed amounts |
| Ledger.TotalOfIsFilteredSum | frontend-code/src/components/Analytics.jsx:1155-1160 | the filtered `sum + (t.amount \|\| 0)` is the type total, a missing amount counting as 0 (the same totals appear at Transactions.jsx:756-761 and Analytics.jsx:1301-1302) |
| Ledger.TotalOfNonzero | frontend-code/src/components/Analytics.jsx:1193 | a non-zero type total needs at least one transaction of that type |
| Ledger.NetBalanceIsSignedTotal | frontend-code/src/components/Analytics.jsx:1161 | `totalIncome - totalExpense` is the running sum of signed amounts: income adds, expense subtracts, any other type adds nothing |
| Ledger.RawTotalOfDefined | frontend-code/src/components/Dashboard.jsx:42-48 | summing the raw amounts gives the type total when every transaction of that type has an amount, and `NaN` otherwise |
| Ledger.MostRecentSpec | frontend-code/src/components/Dashboard.jsx:53-55 | the `n` newest: `min(n, len)` of them, newest first, taken from the input, and none left out is newer than one kept |
| Ledger.MostRecent | frontend-code/src/components/Dashboard.jsx:53-55 | sort by date descending, then keep the first `n`; `Ledger.MostRecentSpec` states that these are the `n` newest, newest first |
| Ledger.FoldKeys | frontend-code/src/components/Analytics.jsx:928-939 | the keys of a `reduce`/`forEach` tally are distinct, and are exactly the keys of its transactions |
| Ledger.FoldFirstKeys | frontend-code/src/components/Analytics.jsx:928-939 | the tally's keys come in order of their first appearance |
| Ledger.FoldKeyOrder | frontend-code/src/components/Dashboard.jsx:58-69 | before the first transaction of a later key there is a transaction of every earlier key |
| Ledger.FoldFirstKey | frontend-code/src/components/Dashboard.jsx:58-69 | the first key of a non-empty tally is the key of its first transaction |
| Ledger.FilteredKeys | frontend-code/src/components/Analytics.jsx:928-939 | a tally over the transactions of one type has, as its keys, exactly the keys of those transactions, each once |
| Ledger.Accumulate | frontend-code/src/components/Analytics.jsx:932-935 | one step of `categories[c] ? categories[c] + a : a`, where a falsy entry restarts from `a`; `Ledger.TallyPerKey` and `Ledger.TallyConserves` prove that with numeric amounts each entry is its key's sum and all entries add up to the total |
| Ledger.TallyPerKey | frontend-code/src/components/Analytics.jsx:932-936 | when every amount is a number, each key's entry is the sum of the amounts with that key |
| Ledger.TallyConserves | frontend-code/src/components/Analytics.jsx:928-939 | when every amount is a number, every entry is a number, and the entries add up to the sum of all amounts |
| Ledger.OrZeroPlusIsAccumulate | frontend-code/src/components/Analytics.jsx:1224 | `(acc[k] \|\| 0) + a` and `acc[k] ? acc[k] + a : a` agree on every amount but `undefined`, which only the first turns into `NaN` |
| Analytics.CategoryKeys | frontend-code/src/components/Analytics.jsx:1221-1225 | a per-category map over one type has distinct keys, namely the labels of that type's transactions; a missing or empty category appears as `'Other'`; no key is empty |
| Analytics.CategoryDataKeys | frontend-code/src/components/Analytics.jsx:928-939 | the keys of `categoryData` are distinct, and are exactly the labels of the expense transactions |
| Analytics.IncomeNeverCounts | frontend-code/src/components/Analytics.jsx:923-926 | a transaction that is not an expense leaves `categoryData` unchanged |
| Analytics.CategoryDataConserves | frontend-code/src/components/Analytics.jsx:928-939 | when every expense has an amount, the entries are numbers and add up to the report's `totalExpense` (lines 1158-1160) |
| Analytics.CategoryDataPerKey | frontend-code/src/components/Analytics.jsx:932-936 | when every expense has an amount, each category's entry is the sum of that category's expenses |
| Analytics.IncomeCategoryDataIsTally | frontend-code/src/components/Analytics.jsx:1221-1225 | `incomeCategoryData` is the same tally as `categoryData`, taken over the income transactions with `amount \|\| 0` |
| Analytics.IncomeCategoryDataConserves | frontend-code/src/components/Analytics.jsx:1221-1225 | the income entries are numbers and add up to `totalIncome` (lines 1155-1157) |
| Analytics.CategoryData | frontend-code/src/components/Analytics.jsx:928-939 | the expense tally per category label; `Analytics.CategoryDataKeys`, `Analytics.CategoryDataPerKey` and `Analytics.CategoryDataConserves` state its keys, each entry's sum and the total |
| Analytics.IncomeCategoryData | frontend-code/src/components/Analytics.jsx:1221-1225 | the income tally `(acc[c] \|\| 0) + (t.amount \|\| 0)`; `Analytics.IncomeCategoryDataIsTally` and `Analytics.IncomeCategoryDataConserves` state that it is the shared tally and adds up to `totalIncome` |
| Analytics.Percent | frontend-code/src/components/Analytics.jsx:1204 | `amount / total * 100` is finite exactly when the amount is a number and the total is non-zero, and it then times the total gives 100 × the amount |
| Analytics.Rows | frontend-code/src/components/Analytics.jsx:1201-1205 | one row per entry, in order, each with the entry's category, its amount and its percentage |
| Analytics.Breakdown | frontend-code/src/components/Analytics.jsx:1193-1205 | a table exists exactly when there is a key and the total is positive; its rows are a permutation of the entries, in non-increasing amount order, each with its percentage |
| Analytics.ExpenseBreakdown | frontend-code/src/components/Analytics.jsx:1193-1205 | the expense table of the PDF: `Analytics.Breakdown` over `categoryData` and `totalExpense`; `Analytics.BreakdownGuards` and `Analytics.ExpensePercentsSum` state when it appears and that its percentages sum to 100 |
| Analytics.IncomeBreakdown | frontend-code/src/components/Analytics.jsx:1227-1244 | the income table of the PDF: `Analytics.Breakdown` over `incomeCategoryData` and `totalIncome`; `Analytics.BreakdownGuards` and `Analytics.IncomePercentsSum` state when it appears and that its percentages sum to 100 |
| Analytics.BreakdownGuards | frontend-code/src/components/Analytics.jsx:1227 | each PDF table (expense at line 1193, income at line 1227) appears exactly when its type total is positive |
| Analytics.BreakdownPercentsSum | frontend-code/src/components/Analytics.jsx:1199-1205 | for numeric entries that add up to the positive total, the percentages sum to 100 |
| Analytics.ExpensePercentsSum | frontend-code/src/components/Analytics.jsx:1193-1205 | when every expense has an amount and the total is positive, the expense table's percentages sum to 100 |
| Analytics.IncomePercentsSum | frontend-code/src/components/Analytics.jsx:1227-1244 | when the income total is positive, the income table's percentages sum to 100 |
| Analytics.CsvCategoryRows | frontend-code/src/components/Analytics.jsx:1314-1316 | the CSV has every `categoryData` entry in insertion order, each with its percentage of the expense total |
| Analytics.CsvZeroTotal | frontend-code/src/components/Analytics.jsx:1314-1316 | the CSV rows are computed with no guard on the expense total: for a zero total every percentage is non-finite |
| Analytics.CsvZeroTotalWritten | frontend-code/src/components/Analytics.jsx:1314-1316 | when every expense has an amount, a zero expense total does not stop the CSV export: the category rows are written, each with a non-finite percentage |
| Analytics.PdfReport | frontend-code/src/components/Analytics.jsx:1193-1218 | the PDF fails with the alert (lines 1293-1296) exactly when the expense table is drawn with an `undefined` amount; otherwise it holds the two guarded tables |
| Analytics.CsvCategorySection | frontend-code/src/components/Analytics.jsx:1314-1316 | the CSV category section is produced exactly when no row's amount is `undefined`, and it is then exactly the category rows |
| Analytics.ExportsSucceed | frontend-code/src/components/Analytics.jsx:1199-1204 | when every expense has an amount, both the PDF and the CSV export go through |
| Analytics.MissingAmountStopsExports | frontend-code/src/components/Analytics.jsx:932-936 | an expense with no amount, first in its category, followed by a positive expense in another category, makes both exports fail |
| Analytics.FoodWithoutAmount | frontend-code/src/components/Analytics.jsx:928-939 | for `Food` with no amount, then `Rent` 100: `categoryData` is `{Food: undefined, Rent: 100}` and both exports fail |
| Analytics.RecentRowOf | frontend-code/src/components/Analytics.jsx:1273-1279 | a recent-table row keeps the date; its description is the first `min(25, len)` characters of `note \|\| description \|\| 'N/A'`; its category is `category \|\| 'N/A'`; its type is `'Income'` exactly for income, else `'Expense'`; its amount is `amount \|\| 0` |
| Analytics.RecentTableSpec | frontend-code/src/components/Analytics.jsx:1270-1279 | the table holds `min(20, len)` rows, newest first, one per transaction among the newest; none left out is newer than one shown |
| Analytics.RecentTable | frontend-code/src/components/Analytics.jsx:1270-1279 | the rows of the 20 newest transactions; `Analytics.RecentTableSpec` states their number, their order and that none left out is newer |
| Analytics.AnalysisMessage | frontend-code/src/components/Analytics.jsx:1091-1118 | the model's text when the reply is ok and the text is non-empty; otherwise the fixed message for a failed status, an empty answer, or a thrown error |
| Analytics.GetAnalysis | frontend-code/src/components/Analytics.jsx:1025-1122 | with no expenses: the "no expense data" message, and no request. With no key: the configuration message, and no request. Otherwise every expense is listed, the request goes through the retry loop, and the last reply decides the message |
| Dashboard.BalanceSpec | frontend-code/src/components/Dashboard.jsx:42-50 | the balance is a number exactly when every income and every expense has an amount; it is then income minus expenses, the signed running sum |
| Dashboard.TotalIncome | frontend-code/src/components/Dashboard.jsx:42-44 | the raw `sum + t.amount` over the incomes; `Dashboard.BalanceSpec` states it is the income total when it is a number |
| Dashboard.TotalExpenses | frontend-code/src/components/Dashboard.jsx:46-48 | the raw `sum + t.amount` over the expenses; `Dashboard.BalanceSpec` states it is the expense total when it is a number |
| Dashboard.Balance | frontend-code/src/components/Dashboard.jsx:50 | income minus expenses; `Dashboard.BalanceSpec` states when it is a number and that it is then the signed running sum |
| Dashboard.RecentSpec | frontend-code/src/components/Dashboard.jsx:53-55 | at most five transactions, newest first, from the input; none left out is newer than one shown |
| Dashboard.Recent | frontend-code/src/components/Dashboard.jsx:53-55 | the five newest transactions; `Dashboard.RecentSpec` states their number, order and selection |
| Dashboard.MonthlyKeys | frontend-code/src/components/Dashboard.jsx:58-69 | one bucket per month name that has a transaction, no other, and no month twice |
| Dashboard.MonthlyTotals | frontend-code/src/components/Dashboard.jsx:58-69 | each bucket holds its month's income amounts summed, and every other type's amounts summed into `expense` |
| Dashboard.MonthFieldIsKey | frontend-code/src/components/Dashboard.jsx:59-61 | the bucket at each position carries the month it is filed under, with that month's totals |
| Dashboard.MonthOrder | frontend-code/src/components/Dashboard.jsx:53-69 | because of the in-place sort, buckets come in order of latest activity, newest first |
| Dashboard.MonthlyData | frontend-code/src/components/Dashboard.jsx:58-69 | the month buckets, built over the list after the in-place sort; `Dashboard.MonthlyKeys`, `Dashboard.MonthlyTotals` and `Dashboard.MonthOrder` state their keys, their totals and their order |
| Dashboard.ChartDropsNewestMonth | frontend-code/src/components/Dashboard.jsx:71 | as written, once there are more than six months the chart leaves out the month of the newest transaction |
| Dashboard.ChartDataAsWritten | frontend-code/src/components/Dashboard.jsx:71 | `Object.values(monthlyData).slice(-6)` as written; `Dashboard.ChartDropsNewestMonth` states that it leaves out the newest month once there are more than six |
| Dashboard.ChartDataSpec | frontend-code/src/components/Dashboard.jsx:71 | the corrected chart has `min(6, buckets)` entries, each with its month's totals, each a month that has transactions |
| Dashboard.ChartData | frontend-code/src/components/Dashboard.jsx:71 | the corrected chart: the six newest buckets, oldest first; `Dashboard.ChartDataSpec`, `Dashboard.ChartNewest`, `Dashboard.ChartChronological` and `Dashboard.ChartKeepsNewest` state its size, contents and order |
| Dashboard.ChartNewest | frontend-code/src/components/Dashboard.jsx:71 | the corrected chart ends with the month of the newest transaction |
| Dashboard.ChartChronological | frontend-code/src/components/Dashboard.jsx:71 | the corrected chart's months run from older to newer activity |
| Dashboard.ChartKeepsNewest | frontend-code/src/components/Dashboard.jsx:71 | no month left out of the corrected chart has a transaction newer than every transaction of a month shown |
| Dashboard.CategoryDataStep | frontend-code/src/components/Dashboard.jsx:74-82 | the category tally is step for step the component's `if (!acc[c]) acc[c] = 0; acc[c] += amount` |
| Dashboard.CategoryDataKeys | frontend-code/src/components/Dashboard.jsx:74-82 | the category keys are distinct, and are exactly the categories of the expenses (`"undefined"` for a missing one) |
| Dashboard.CategoryDataConserves | frontend-code/src/components/Dashboard.jsx:74-82 | when every expense has an amount, the values are numbers and add up to the expenses card (lines 46-48) |
| Dashboard.CategoryData | frontend-code/src/components/Dashboard.jsx:74-82 | the expense tally per category; `Dashboard.CategoryDataStep`, `Dashboard.CategoryDataKeys` and `Dashboard.CategoryDataConserves` state its steps, keys and total |
| Dashboard.CategoryKey | frontend-code/src/components/Dashboard.jsx:76 | the key `acc[transaction.category]` uses: the category itself, or `"undefined"` when it is missing; `Dashboard.CategoryDataKeys` states that the map's keys are exactly these keys of the expenses |
| Dashboard.PieData | frontend-code/src/components/Dashboard.jsx:84-87 | as many slices as the category map has entries |
| Dashboard.PieDataSpec | frontend-code/src/components/Dashboard.jsx:84-87 | one slice per expense category, none twice, each carrying that category's value |
| TransactionForm.CategoryLists | frontend-code/src/components/Transactions.jsx:634-651 | the expense list is offered exactly for the expense type; both lists are non-empty and offer `'Other'`; their first entries are `Food` and `Salary` |
| TransactionForm.CategoriesFor | frontend-code/src/components/Transactions.jsx:651 | the list offered for a type; `TransactionForm.CategoryLists` states that the expense list is offered exactly for expenses, and what both lists start with and contain |
| TransactionForm.ResetValid | frontend-code/src/components/Transactions.jsx:714-721 | the initial form (line 627) and a reset form both show a category of the list; they differ only in that category |
| TransactionForm.Reset | frontend-code/src/components/Transactions.jsx:714-721 | reset gives empty inputs, the expense type with its first category, no edited record, and no error |
| TransactionForm.SentCategory | frontend-code/src/components/Transactions.jsx:695 | the category sent is never empty: an empty selection becomes `'Other'` |
| TransactionForm.Submit | frontend-code/src/components/Transactions.jsx:684-712 | nothing is sent exactly when the description or the amount is empty, and the error is then set. Otherwise the record (note, parsed amount, type, category, date, user) goes as an update exactly when a record is being edited. A successful save resets the form; a failed one keeps it and sets the error |
| TransactionForm.Edit | frontend-code/src/components/Transactions.jsx:974-983 | loads the id, text, amount, type and category (the type's first category when there is none). A missing amount throws after the id and the text are set |
| TransactionForm.EditThenSubmit | frontend-code/src/components/Transactions.jsx:974-983 | editing a record and saving sends an update of that id, with its note, type and category and its amount read back |
| TransactionForm.ChangeType | frontend-code/src/components/Transactions.jsx:1180-1186 | a type change sets the new type and its list's first category, and nothing else |
| TransactionForm.ChangeTypeValid | frontend-code/src/components/Transactions.jsx:1180-1186 | after a type change the category is one the new list offers |
| TransactionForm.SubmitValid | frontend-code/src/components/Transactions.jsx:684-721 | submitting keeps a category the list offers, whether the save succeeds or not |
| TransactionForm.FirstContained | frontend-code/src/components/Transactions.jsx:1073-1075 | `find` returns the first category whose lower-case form occurs in the text, or none when no category does |
| TransactionForm.Normalize | frontend-code/src/components/Transactions.jsx:1062-1077 | a normalised answer is a listed category or `'Other'`, and a trimmed exact match is kept |
| TransactionForm.NormalizeFirstMention | frontend-code/src/components/Transactions.jsx:1072-1076 | text that is no category takes the first category, in list order, that it mentions ignoring case |
| TransactionForm.NormalizeNoMention | frontend-code/src/components/Transactions.jsx:1076 | text that is no category and mentions none becomes `'Other'` |
| TransactionForm.CategoriesUntrimmed | frontend-code/src/components/Transactions.jsx:634-649 | no category name begins or ends with white space |
| TransactionForm.NormalizeExact | frontend-code/src/components/Transactions.jsx:1065-1066 | a category written exactly is its own normal form |
| TransactionForm.NormalizeIdempotent | frontend-code/src/components/Transactions.jsx:1062-1077 | with the form's lists, a normalised answer is always listed, and normalising it again changes nothing |
| TransactionForm.ApplySuggestion | frontend-code/src/components/Transactions.jsx:1048-1078 | only an ok reply with a non-empty text changes the form, and then only its category, to the normalised text |
| TransactionForm.Suggest | frontend-code/src/components/Transactions.jsx:999-1084 | nothing is asked exactly when the description is blank or there is no key. Otherwise the request lists the current categories, goes through the retry loop, and its last reply is applied |
| TransactionForm.BlankNoSuggestion | frontend-code/src/components/Transactions.jsx:1000 | a blank description asks nothing and changes nothing |
| TransactionForm.ApplySuggestionValid | frontend-code/src/components/Transactions.jsx:1062-1077 | applying an answer keeps a valid category valid |
| TransactionForm.SuggestValid | frontend-code/src/components/Transactions.jsx:999-1084 | starting from a category the list offers, a suggestion applied to the form as it was when the request was sent leaves one the list offers |
| TransactionForm.CsvDescription | frontend-code/src/components/Transactions.jsx:893 | the description column is `note \|\| description \|\| 'N/A'` with every comma made `;` and every other character kept, so it holds no comma |
| TransactionForm.CsvFields | frontend-code/src/components/Transactions.jsx:893 | a CSV line has five fields, the second being the sanitised description |
| TransactionForm.CsvRowReadBack | frontend-code/src/components/Transactions.jsx:891-894 | when the other fields hold no comma, splitting a line at commas gives back its five fields |
| TransactionForm.CsvRow | frontend-code/src/components/Transactions.jsx:893 | one CSV line: the five fields joined with commas and ended by a newline; `TransactionForm.CsvRowReadBack` states that splitting it gives the fields back |
| Retry.From | frontend-code/src/components/chatbot.jsx:133-149 | from attempt `i`: every attempt before the last got a retryable status; an early stop happens only on a reply that is not retryable; the delays double from attempt `i` on |
| Retry.Run | frontend-code/src/components/chatbot.jsx:130-149 | one to three attempts; every attempt before the last got 429 or 5xx; one wait per retryable reply, of 1000, 2000 and 4000 ms (the same loop is at Analytics.jsx:1069-1089 and Transactions.jsx:1026-1046) |
| Retry.StopsAtFirstSuccess | frontend-code/src/components/chatbot.jsx:139-141 | the first ok reply, or a network failure, ends the loop there |
| Retry.IsRetryable | frontend-code/src/components/chatbot.jsx:142 | a retry happens only on status 429 or 500 and above; `Retry.Run` states that every attempt before the last got such a status |
| Retry.Delay | frontend-code/src/components/chatbot.jsx:132-145 | the wait after attempt `k` starts at 1000 ms and doubles each time: 1000, 2000 and 4000 ms for the three attempts |
| Chatbot.ToContents | frontend-code/src/components/chatbot.jsx:110-119 | `contents` has history + 1 entries: each history message keeps its text, with the role user exactly for the user's messages, and the new message comes last as a user entry |
| Chatbot.ReplyText | frontend-code/src/components/chatbot.jsx:151-169 | the model's text when it is ok and non-empty; otherwise the fixed apology for a failed status, an empty text, or an error; never empty |
| Chatbot.GeminiResponse | frontend-code/src/components/chatbot.jsx:98-173 | with no key: no request, and the configuration message. Otherwise the conversation goes through the retry loop and the reply is read from its last response |
| Chatbot.HandleSend | frontend-code/src/components/chatbot.jsx:175-205 | blank input, or input while loading, changes nothing. Otherwise the input is cleared, the user message gets id `len + 1`, and the reply, computed from the earlier history, gets id `len + 2` |
| Chatbot.GreetingIds | frontend-code/src/components/chatbot.jsx:71-77 | the conversation opens with the bot's greeting alone, under id 1, so its ids start out sequential |
| Chatbot.SendKeepsIds | frontend-code/src/components/chatbot.jsx:182-202 | every send keeps sequential message ids sequential, so from the greeting on ids never repeat |
| Cors.AllowedOrigins | backend/server.js:24-44 | the six development entries, then the frontend URL when it is set, then the two Vercel patterns |
| Cors.AnyMatches | backend/server.js:52-59 | `some(...)` holds exactly when some entry matches |
| Cors.Matches | backend/server.js:52-59 | a string entry matches only the identical origin, and a pattern entry as its regular expression does; `Cors.CheckOriginSpec` states which origins the entries admit together |
| Cors.CheckOrigin | backend/server.js:46-67 | a missing or empty origin passes; any other origin passes exactly when an entry matches, and is otherwise rejected with "Not allowed by CORS" |
| Cors.CheckOriginSpec | backend/server.js:24-67 | a non-empty origin passes exactly when it is `localhost`/`127.0.0.1` with a numeric port, the configured frontend URL, or an `https://*.vercel.app` host |
| Cors.ExactDevelopmentCovered | backend/server.js:26-31 | the four fixed development URLs are already covered by the port patterns |
| Cors.PreviewCovered | backend/server.js:42-43 | the preview pattern admits nothing the general Vercel pattern does not |
| Cors.LocalPortsAllowed | backend/server.js:26-27 | every all-digit port on `localhost` and on `127.0.0.1` is allowed |
| Cors.VercelAllowed | backend/server.js:42 | every HTTPS `*.vercel.app` host without a line break is allowed (`.` in the pattern does not match one) |
| Cors.PlainHttpVercelRejected | backend/server.js:41-44 | the same host over plain `http://` is rejected, unless it is the configured frontend URL |
| Cors.FrontendUrlAdds | backend/server.js:35-38 | setting `FRONTEND_URL` allows exactly that string in addition to what was allowed before |
| ApiConfig.DropSlash | frontend-code/src/services/api.js:7 | `replace(/\/$/, '')` removes at most one trailing slash |
| ApiConfig.ResolveApiBaseUrl | frontend-code/src/services/api.js:4-25 | a non-blank configured URL wins (trimmed, without its trailing slash); with no window, the local server |
| ApiConfig.BrowserResolution | frontend-code/src/services/api.js:10-22 | with no configured URL: local hosts get the local server, `*vercel.app` hosts the deployed one, and any other host its origin plus `/api` |
| ApiConfig.ConfiguredIgnoresWindow | frontend-code/src/services/api.js:5-8 | a configured URL makes the window irrelevant |
| ApiConfig.RootUrl | frontend-code/src/services/api.js:40 | a trailing `/api` becomes `/`; any other URL is unchanged |
| ApiConfig.RootOfApi | frontend-code/src/services/api.js:40 | `prefix/api` has `prefix/` as its root |
| ApiConfig.ResolvedRoot | frontend-code/src/services/api.js:13-24 | with no configured URL, the base always ends in `/api`, so the health check goes to the same server's root |
| ApiConfig.HandleApiError | frontend-code/src/services/api.js:154-162 | the server's message, else the error's message, else the default; an empty message counts as absent; never empty |
| ApiConfig.HandleApiErrorChain | frontend-code/src/services/api.js:154-162 | the message shown is the first non-empty one of the chain, and showing it again as a server message shows the same text |
| TransactionStore.OwnedBy | backend/controllers/transactionController.js:9 | `find({ user })` gives every document of the user, as often as it is stored, and no other |
| TransactionStore.List | backend/controllers/transactionController.js:8-11 | exactly the caller's documents, sorted by date descending |
| TransactionStore.ListMembers | backend/controllers/transactionController.js:9 | a document is listed exactly when it is stored and belongs to the caller |
| TransactionStore.Find | backend/controllers/transactionController.js:17 | `findById` finds the first document with the id, and none exactly when no document has it |
| TransactionStore.FindUnique | backend/controllers/transactionController.js:17 | with unique ids, the document found is the only one with the id |
| TransactionStore.Owned | backend/controllers/transactionController.js:18 | the ownership check passes only on a document with the id that belongs to the caller, and fails only when it is missing or someone else's |
| TransactionStore.OwnedSpec | backend/controllers/transactionController.js:18 | with unique ids, the check passes exactly when the caller has a document with that id |
| TransactionStore.Get | backend/controllers/transactionController.js:16-23 | the caller's document, or 404 "Transaction not found" exactly when the check fails |
| TransactionStore.GetOwn | backend/controllers/transactionController.js:16-23 | a user reads back each of their own documents, and gets 404 for anyone else's |
| TransactionStore.Create | backend/controllers/transactionController.js:28-39 | status 201; a new document at the end, with the fresh id, owned by the caller, holding only the body's five fields; the rest of the collection is unchanged |
| TransactionStore.CreateIgnoresUser | backend/controllers/transactionController.js:29-31 | whatever `user` the body names, the new document is the caller's |
| TransactionStore.CreateThenGet | backend/controllers/transactionController.js:28-39 | with a fresh id, ids stay unique and the caller reads the new document back |
| TransactionStore.CreateThenList | backend/controllers/transactionController.js:28-39 | the caller's list gains the new document; every other user's list is unchanged |
| TransactionStore.Apply | backend/controllers/transactionController.js:51-55 | every field present in the body replaces the stored one, the owner included; the id is kept |
| TransactionStore.ApplyLaws | backend/controllers/transactionController.js:51-55 | an empty body changes nothing, and applying a body twice is applying it once |
| TransactionStore.Update | backend/controllers/transactionController.js:44-57 | 404 "not found or not authorized", with the store unchanged, exactly when the check fails. Otherwise only that document takes the body, and it is returned |
| TransactionStore.UpdateFrame | backend/controllers/transactionController.js:51-55 | an update keeps the set of ids and their uniqueness, and touches no document with another id |
| TransactionStore.UpdateTransfersOwner | backend/controllers/transactionController.js:51-55 | a body naming another owner moves the document: the caller then gets 404 and the new owner reads it |
| TransactionStore.Delete | backend/controllers/transactionController.js:62-70 | 404 with the store unchanged exactly when the check fails; otherwise that document is removed, the others keep their order, and the response echoes the id |
| TransactionStore.DeleteRemoves | backend/controllers/transactionController.js:62-70 | a successful delete removes exactly one document; its id leaves the id set, the other ids stay unique, and reading it gives 404 |

## Left out

- Analytics.RecentTable: `substring(0, 25)` counts UTF-16 code units, while the model's `Prefix` counts characters (code points). A description with characters outside the Basic Multilingual Plane is cut at a different place.
- Analytics.CategoryData: keys that every JavaScript object inherits are not modelled. A category named `constructor` or `toString` starts truthy, so `+=` concatenates strings; `__proto__` is never stored as a key. Both break `Analytics.CategoryDataConserves` for such names. The same holds for Analytics.IncomeCategoryData.
- Dashboard.CategoryData: the same inherited-key cases (Dashboard.jsx:76-79) are not modelled.
- Dicts.Put: JavaScript lists integer-like keys (`"1"`, `"42"`) before all others in `Object.keys`/`Object.entries`; the model keeps plain insertion order for every key.
- Dashboard.CategoryKey: `Option` merges `null` and `undefined`. The model gives `"undefined"` for any missing category, where a stored `null` category is keyed `"null"` in JavaScript.
- Strings.ToLower: lower-cases ASCII letters only. All category names in the lists are ASCII, so normalisation against them is unaffected; a suggestion with non-ASCII capitals is compared differently.
- Numbers.Plus: amounts are whole minor units (unbounded integers). JavaScript uses binary floating point; rounding error and non-integer amounts are not modelled.
- Analytics.Percent: the percentage is an exact rational; the one-decimal `toFixed(1)` text is not modelled.
- Ledger.DateKey: dates are an abstract day index plus a month name. `new Date(...)` parsing, time zones, invalid dates, and `toLocaleDateString`/`toLocaleString` formatting are left out.
- Sorting.SortDesc: a comparator that returns `NaN` (a missing amount or date) gives an implementation-defined order in JavaScript; the model fixes one permitted order, with non-numbers last. The database's order among equal dates is also fixed here as stable.
- Analytics.RecentTable: the PDF export sorts the component's transaction array in place (Analytics.jsx:1270-1271). The model takes the list in the order given for every later computation.
- Analytics.GetAnalysis: only which transactions the prompt lists is modelled, not the text of each line (`formatCurrency` is not modelled).
- Ledger.Raw: an amount is either present or missing; a stored `null` amount is read like a missing one. In JavaScript `sum + null` and `acc[c] += null` treat `null` as 0 (Dashboard.jsx:44, 48, 79; Analytics.jsx:933), while the model gives `NaN` or `undefined`. So Dashboard.TotalIncome, Dashboard.TotalExpenses, Dashboard.Balance, Dashboard.CategoryData and Analytics.CategoryData differ from the program on a record whose amount is stored as `null`. Where the code writes `amount || 0`, `null` and a missing amount agree.
- TransactionForm.Suggest: the reply is applied to the form as it was when the request was sent. In the component only the suggest button is disabled while a request is pending (Transactions.jsx:1139); the type select is not. A type change during the wait makes `setCategory` (Transactions.jsx:1062-1077) put a category of the old list on the new type. Such interleavings are not modelled, so TransactionForm.SuggestValid holds only for a run without them.
- Chatbot.HandleSend: React's batched state updates are taken as applied in program order; sends that interleave while a reply is pending are not modelled beyond the `isLoading` guard.
- Retry.Run: the waits themselves (`setTimeout`) are not modelled, only the delays requested. The endpoint is a function from attempt number to reply.
- TransactionStore.Create: Mongoose schema validation, type casting and default values are not modelled; the Mongoose model file is not part of this model. The fresh id is a parameter.
- TransactionStore.Find: a malformed id makes Mongoose throw a cast error (a 500 response); that path is not modelled.
- TransactionStore.Update: an `_id` field in the body, and validation on update, are not modelled; every other body field is applied as given.
- The authentication middleware that supplies `req.user` is not part of this model; the caller's id is a parameter.
- The PDF layout, the Excel and Word exports (Analytics.jsx:1329-1392, Transactions.jsx:907-972), file downloads and Blob creation are left out: they are formatting and browser I/O. Only the data the PDF and CSV exports compute is modelled.
- Loading and refreshing the transaction list, and `handleDelete`, are network calls; whether a save succeeded is a parameter of `TransactionForm.Submit`.

## Findings

| source | as written | input that shows it | evidently intended | confidence | as-written member | corrected member |
|---|---|---|---|---|---|---|
| frontend-code/src/components/Dashboard.jsx:71 | `Object.values(monthlyData).slice(-6)` takes the last six buckets. The in-place sort at lines 53-55 has already put the transactions newest first, so the buckets were created newest first and the last six are the oldest months | any transaction list spanning seven different month names: the chart leaves out the month of the newest transaction | the six most recent months, shown from oldest to newest | not executed | Dashboard.ChartDataAsWritten, Dashboard.ChartDropsNewestMonth | Dashboard.ChartData, Dashboard.ChartNewest, Dashboard.ChartChronological, Dashboard.ChartKeepsNewest |
