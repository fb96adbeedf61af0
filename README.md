# ledger.py in Dafny

This project models `ledger.py`, a small double-entry bookkeeping program, and proves properties of the model. Its modules follow the program's own sections:

- **Text** (`text.dfy`) is the small part of Python 2's `str` that the program relies on: `upper`, `split(':')`, `split()`, `strip`, `join`, `rjust`, `ljust`, `translate(None, chars)` and string `<`. Strings are `seq<char>`. Upper-casing is ASCII. Whitespace means the six characters `str.split()` treats as space.
- **Results** (`results.dfy`) holds `Option`, `Result<T>`, `Outcome` and one `Error` datatype. Every `sys.exit(-1)` and every raised `KeyError`/`ValueError`/`IndexError` of the program becomes an error value. The message written to stderr becomes the error's fields.
- **Accounts** (`accounts.dfy`) covers account naming:
  - `root_account_name`, `sign_account` and `is_valid_account_string`;
  - `account_string_components`, `is_prefix_of` and `contains_account`;
  - `account_string_and_parents`.
- **Amounts** (`amounts.dfy`) covers amounts. An amount is `Nil` (the program's `{}`) or `Amount(units, quantity)`, with the quantity in integer cents. Parsing is exact decimal parsing to cents instead of the program's `float` round trip. Formatting writes `$`/`-$`, thousands separators and two decimals. This module also holds the single-unit extraction and difference helpers.
- **Journal** (`journal.dfy`) holds the records and the balance law:
  - the posting, transaction and verification records;
  - `affects` and `filter_by_account`;
  - `balance_amounts` and `is_balanced`: per unit, the quantity times the account's sign, summed;
  - `ensure_balanced` and `ensure_date_sorted`.
- **Parser** (`parser.dfy`) is the line-driven journal reader: `parse_first_line`, `parse_posting`, `parse_balance_verify`, `is_balance_verify_line` and `parse_transactions`.
  - The reader is a generic state machine with two halves. One half is the per-line parsers, which are fields of a `Reader` value. The other half is the shared control that these parsers plug into. The properties are proved for any reader and then specialised to the journal's.
  - The `dateutil` calls (`is_valid_date`, `isoformat`) are a `DateParser` parameter.
- **Tree** (`tree.dfy`) is the account tree, a `class AccountTree`. Its one field `nodes` maps a canonical path to a node `{name, balances, hasOwnPostings}`.
  - The root is the node `_make_account('')` at the empty path.
  - A node's sub-accounts are the paths one component longer. This is a flat rendering of the program's nested dictionaries.
  - The tree's methods are `_ensure_sub_account`, `_ensure_sub_accounts`, `find_account`, `account_and_parents` and `book_posting`. They update `nodes` in place.
- **Engine** (`engine.dfy`) builds trees from account strings and from transactions, and holds `calculate_balances`.
- **Verify** (`verify.dfy`) covers the balance verifications: `verify_balance` and `verify_balances`. It models the merge exactly as written in the source. It also has a corrected variant (see "Findings").
- **Reports** (`reports.dfy`) covers the account reports:
  - `chart_of_accounts` and `single_unit_balances_helper`, with their collapse rule for a node that has one sub-account and no postings of its own;
  - `find_original_prefix`.
- **Register** (`register.dfy`) is `calculate_register`. It keeps a running balance of the target account over the postings that affect it.
- **Columns** (`columns.dfy`) covers `join_columns`, `justify_columns`, `rjust_column` and `ljust_column`.

Dates are strings compared with Python's string `<`, as in the source. The loops of the source are `method`s:
- `account_string_and_parents`, `balance_amounts` and `ensure_*`;
- the parser loop, the tree updates and the booking loops;
- the verification merge, the register and the column helpers.

Each method is proved against a function that states its result or its new state. The properties are then proved about those functions.

## Model

| member | source | states |
|---|---|---|
| Accounts.RootAccountName | ledger.py:187-205 | the root name is upper case and has no `:` |
| Accounts.RootAccountNameCases | ledger.py:187-205 | ASSET(S), LIABILIT(Y/IES), EXPENSE(S) give the plural; REVENUE(S) and INCOME give INCOME; any other first component comes back upper-cased and unchanged |
| Accounts.RootAccountNameExamples | test_ledger.py:22-28 | Equity:Matthew → EQUITY, Assets:Cash and Asset:Cash → ASSETS, liability → LIABILITIES, expense → EXPENSES |
| Accounts.SignAccount | ledger.py:207-240 | the sign is +1 or -1, and an unknown root is an error naming the account string |
| Accounts.SignAccountCases | ledger.py:207-240 | +1 exactly for ASSETS/EXPENSES, -1 exactly for LIABILITIES/INCOME/EQUITY, and an error for every other root |
| Accounts.ValidAccountRoots | ledger.py:242-252 | an account string is valid iff its upper-cased first component is one of the ten accepted root spellings |
| Accounts.ValidAccountExamples | test_ledger.py:30-33 | "assets.matthew" is invalid (`.` does not separate) and "assets:matthew" is valid |
| Accounts.UpperAll | ledger.py:592-593 | every piece is upper-cased, and no `:` is introduced |
| Accounts.AccountStringComponents | ledger.py:583-595 | `original` is the split on `:`; `regular` has the same length, begins with the root name and upper-cases every later piece; no regular component contains `:` |
| Accounts.ComponentsExample | test_ledger.py:50-52 | equity:foo has original [equity, foo] and regular [EQUITY, FOO] |
| Accounts.OriginalJoin | ledger.py:590 | joining the original components with `:` gives back the account string |
| Accounts.RegularCanonical | ledger.py:583-595 | a regular path is canonical: upper case, colon-free, with a regularised root |
| Accounts.JoinCanonical | ledger.py:583-595 | a canonical path joined with `:` regularises to itself (round trip) |
| Accounts.RegularOfJoinedPrefix | ledger.py:583-595 | the joined first k regular components regularise to exactly those k components |
| Accounts.RegularIdempotent | ledger.py:583-595 | regularising a regularised account string changes nothing |
| Accounts.IsPrefixOf | ledger.py:314-316 | true iff `list1` is no longer than `list2` and agrees with it position by position |
| Accounts.ContainsReflexive | ledger.py:318-322 | every account contains itself |
| Accounts.ContainsTransitive | ledger.py:318-322 | containment is transitive |
| Accounts.ContainsSameRoot | ledger.py:318-322 | containment never crosses roots |
| Accounts.ContainsCaseInsensitive | ledger.py:318-322 | two spellings with the same regular form contain the same accounts |
| Accounts.ContainsAccountExamples | test_ledger.py:153-155 | Income contains Income:Salary and does not contain Expenses:Phone |
| Accounts.AncestorNames | ledger.py:689-697 | one name per component; the k-th regularises to the first k+1 components and contains the account |
| Accounts.AccountStringAndParents | ledger.py:689-697 | the loop that extends each name by `":" + component` returns exactly AncestorNames |
| Amounts.ParseAmount | ledger.py:110-120 | "-" is nil; any other string, with `$` and `,` removed, parses to AUD cents exactly when it is a decimal with at most two places; otherwise InvalidAmount |
| Amounts.ParseAmountAdjustingSign | ledger.py:122-129 | succeeds iff the number parses and the account has a sign, and then gives the parsed cents times the sign |
| Amounts.Digits | ledger.py:143-145 | the decimal digits of n, with no `.`, `,` or `$` |
| Amounts.FormatAmount | ledger.py:131-147 | nil is "-"; an amount formats iff its units are AUD, with a leading "$" when non-negative and "-$" when negative |
| Amounts.GroupedUndecorated | ledger.py:143-145 | the thousands-grouped digits, with the commas removed, are the digits of n |
| Amounts.FormatAmountChars | ledger.py:131-147 | a formatted amount is non-empty and uses only digits, `,`, `.`, `$` and `-` |
| Amounts.FormatAmountDot | ledger.py:143-145 | a formatted amount always has a decimal point |
| Amounts.FormatParseRoundTrip | ledger.py:110-147 | parsing a formatted AUD or nil amount gives the amount back |
| Amounts.ParseFormatRoundTrip | ledger.py:110-147 | a string produced by format_amount parses and formats back to itself |
| Amounts.FormatParseWithoutDollar | ledger.py:110-147 | the parsers strip `$` from the token before parse_amount (ledger.py:448, 477); the round trip holds with the `$` already removed too |
| Amounts.ParseNegativeExample | test_ledger.py:18 | '-$285.21' parses to -28521 AUD cents |
| Amounts.ParseGroupedExample | test_ledger.py:19 | '$2,073.68' parses to 207368 AUD cents |
| Amounts.ExtractSingleUnitAmount | ledger.py:149-154 | succeeds iff exactly one unit is present, and returns that unit and its quantity |
| Amounts.ExtractNilOrSingleUnitAmount | ledger.py:156-163 | nil for no units; the single amount for one unit; an error for more |
| Amounts.FormatSingleUnitAmount | ledger.py:165-167 | succeeds iff there is exactly one unit and it is AUD, and then is that AUD amount formatted; any other number of units gives NotSingleUnit with that count |
| Amounts.FormatNilOrSingleUnitAmount | ledger.py:169-171 | succeeds iff there are no units or exactly one in AUD; no units give "-", one unit gives format_single_unit_amount's result, more give NotSingleUnit |
| Amounts.DifferenceNilOrSingleUnitAmount | ledger.py:173-182 | a nil side returns the other side; mismatched units are an error; otherwise the quantities subtract |
| Amounts.DifferenceFromNil | ledger.py:175-176 | nil minus q gives q, not -q |
| Journal.AffectsAncestor | ledger.py:324-330 | a transaction that affects an account also affects every account containing it |
| Journal.FilterPostings | ledger.py:341-343 | every kept posting affects the account and comes from the input, and every posting that affects it is kept |
| Journal.FilterTransactions | ledger.py:341-343 | every kept transaction affects the account and comes from the input, and every transaction that affects it is kept |
| Journal.FilterPostingsNarrow | ledger.py:341-343 | filtering by a container and then by the account equals filtering by the account |
| Journal.FilterTransactionsNarrow | ledger.py:341-343 | the same for transactions |
| Journal.FilterPostingsAppend | ledger.py:341-343 | filtering distributes over concatenation |
| Journal.FilterTransactionsAppend | ledger.py:341-343 | filtering distributes over concatenation |
| Journal.TotalsSum | ledger.py:254-265 | the totals exist iff every posting has an amount and a known root; they then have exactly the units used, each summing quantity times sign |
| Journal.TotalsFirstError | ledger.py:254-265 | the first posting that cannot be totalled decides the error |
| Journal.BalanceAmounts | ledger.py:254-265 | the accumulating loop computes the totals |
| Journal.TwoPostingTotals | ledger.py:254-265 | for two AUD postings, the total is q1·s1 + q2·s2 |
| Journal.CashEquityExample | test_ledger.py:142-151 | Assets:Cash 1234 with Equity 1234 totals to {AUD: 0} |
| Journal.OpeningSigns | test_ledger.py:36-48 | the test accounts' signs: the Assets accounts +1, Equity:OpeningBalances -1 |
| Journal.IsBalanced | ledger.py:267-273 | fails iff the totals fail; otherwise true iff every total is zero |
| Journal.BalancedIffUnitSumsZero | ledger.py:267-273 | balanced iff, for every unit used, the signed sum is zero |
| Journal.NoPostingsBalanced | ledger.py:267-273 | a transaction with no postings is balanced |
| Journal.UnbalancedExample | test_ledger.py:36-42 | Assets 22863 with Equity -22863 totals 45726 and does not balance |
| Journal.BalancedExample | test_ledger.py:43-48 | Assets 22863 with Equity 22863 balances |
| Journal.ComplaintsEmpty | ledger.py:285-298 | no complaint iff every transaction balances |
| Journal.ComplaintsSound | ledger.py:285-298 | every complaint describes an unbalanced transaction of the input |
| Journal.ComplaintsComplete | ledger.py:285-298 | every unbalanced transaction is reported with its line, date, description and non-zero amounts |
| Journal.OffendersMeaning | ledger.py:285-298 | all offenders are collected: none iff all balance, each one real, none missed |
| Journal.EnsureBalanced | ledger.py:285-298 | the scanning loop returns exactly the offenders |
| Journal.EnsureDateSorted | ledger.py:300-312 | passes iff the dates never decrease; otherwise fails at the first k whose date is less than its predecessor's |
| Parser.ReformatDate | ledger.py:356-358 | a prefix of the ISO rendering, ten characters long or all of it when shorter |
| Parser.ParseFirstLine | ledger.py:360-378 | a parsed header keeps its line number and has no postings |
| Parser.ParseFirstLineCases | ledger.py:360-378 | succeeds iff there is a first token and it is a valid date; the date is reformatted; the description is the stripped rest |
| Parser.FirstLineRoundTrip | ledger.py:360-378 | "date spaces description" parses back to that date (reformatted) and description |
| Parser.ParsePosting | ledger.py:469-492 | a parsed posting keeps its line number |
| Parser.ParsePostingCases | ledger.py:469-492 | the error cases, in the order they are checked: fewer than two tokens, an invalid account, an amount that does not parse; a posting is read only when its first token is a valid account and its `$`-free second token parses to the posting's amount |
| Parser.PostingRoundTrip | ledger.py:469-492 | an indented "account amount" line with a formatted amount parses back to that posting |
| Parser.ParseBalanceVerifyCases | ledger.py:425-467 | the error cases, in the order they are checked: a token count other than 4, an invalid account, an invalid date, an amount that does not parse; a verification is read only from four tokens whose date is valid and kept as written, whose account is valid and whose amount parses |
| Parser.VerifyWordsRoundTrip | ledger.py:425-467 | a line of a keyword, a date, an account and a formatted amount, separated by whitespace, splits into those four words and parses back to that verification, the date not reformatted |
| Parser.VerifyLineRoundTrip | ledger.py:425-467 | a "VERIFY-BALANCE date account amount" line is recognised as a verification line and parses back to that verification |
| Parser.CleanedIdempotent | ledger.py:506-512 | cleaning a line (strip, comments to blank) twice is cleaning it once |
| Parser.Close | ledger.py:516-520 | flushing leaves no open transaction, keeps the verifications and preserves the reader invariant |
| Parser.ReadLine | ledger.py:506-528 | one iteration of the loop is one step of the reader |
| Parser.ParseTransactions | ledger.py:499-533 | the loop computes ParseJournal |
| Parser.JournalReaderNumbered | ledger.py:525-528 | the journal's parsers stamp the line number they are given |
| Parser.RunFromLines | ledger.py:499-533 | from any state, the records keep their order and carry the 1-based numbers of their lines |
| Parser.RecordLinesOrdered | ledger.py:505-513 | record line numbers are strictly increasing and within the lines read |
| Parser.RunLines | ledger.py:499-533 | the transactions and postings carry, in file order, the numbers of the lines that produced them |
| Parser.ParseJournalLines | ledger.py:499-533 | the same for the journal's own reader |
| Parser.RunVerifications | ledger.py:523-524 | the verifications are exactly those of the verify lines, in file order |
| Parser.ParseJournalVerifications | ledger.py:523-524 | the same for the journal's own reader |
| Parser.VerifyKeepsOpen | ledger.py:523-528 | a verify line adds one verification and leaves the open transaction and its postings alone |
| Parser.RunFromCleaned | ledger.py:506-512 | cleaning the lines beforehand changes nothing |
| Parser.ParseJournalCleaned | ledger.py:506-512 | the same for the journal's own reader |
| Parser.RunBlank | ledger.py:514-520 | blank and comment lines alone yield nothing |
| Parser.BlankJournal | ledger.py:514-520 | the same for the journal's own reader |
| Parser.RunHeaderOnly | ledger.py:529-531 | a lone header yields one transaction, with no postings, from line 1 |
| Parser.HeaderOnlyJournal | ledger.py:529-531 | the same for the journal's own reader |
| Parser.RunVerifyInsideBlock | ledger.py:523-531 | header, posting, verify, posting gives one transaction with both postings and one verification |
| Parser.VerifyInsideBlock | ledger.py:523-531 | the same for the journal's own reader |
| Tree.EnsuredMeaning | ledger.py:612-626 | ensuring a path adds exactly its prefixes; new nodes get the original spelling and empty balances; old nodes keep everything except that the leaf's flag is set; the tree stays prefix-closed |
| Tree.EnsuredNew | ledger.py:604-610 | a new node at depth k is named by the k-th original component |
| Tree.EnsuredLeaf | ledger.py:625-626 | the leaf exists and has its own postings |
| Tree.EnsuredClosed | ledger.py:612-626 | every ancestor of every node stays present |
| Tree.AddChild | ledger.py:604-610 | the child is present afterwards and is the only key that can have been added |
| Tree.FindAccountCases | ledger.py:661-674 | found iff the regular path is in the tree, and then it is that path; otherwise AccountNotFound |
| Tree.FindAllFound | ledger.py:684-686 | when every name is found, all are returned in order |
| Tree.FindAllMissing | ledger.py:684-686 | the first missing name decides the error |
| Tree.AccountAndParentsPaths | ledger.py:676-687 | the nodes of the account and of all its ancestors, shortest first |
| Tree.AncestorFound | ledger.py:676-687 | each cumulative name finds its prefix node |
| Tree.BookingMeaning | ledger.py:699-714 | booking adds the quantity in the posting's unit to exactly the nodes on the path, sets the leaf's flag, and changes nothing else |
| Tree.BookedCases | ledger.py:699-714 | booking fails for a nil amount or a missing account, and otherwise is that update |
| Tree.AccountTree.constructor | ledger.py:597-602 | a tree holding only the root node `_make_account('')` |
| Tree.AccountTree.EnsureSubAccount | ledger.py:604-610 | the child path is the parent's plus the regular component, added with its original spelling when absent |
| Tree.AccountTree.EnsureSubAccounts | ledger.py:612-626 | the new tree is Ensured(old tree, account path), and validity is kept |
| Tree.AccountTree.EnsureComponents | ledger.py:621-626 | the component loop ensures the whole path |
| Tree.AccountTree.Find | ledger.py:661-674 | the component walk returns FindAccount |
| Tree.AccountTree.HasPath | ledger.py:661-674 | the walk finds the path iff all its prefixes are present |
| Tree.AccountTree.AccountAndParents | ledger.py:676-687 | returns the ancestor nodes, or the first lookup error |
| Tree.AccountTree.BookPosting | ledger.py:699-714 | passes iff booking succeeds, and the new tree is the booked one; on failure the tree is unchanged |
| Tree.AccountTree.AddToEach | ledger.py:707-714 | adds the quantity to exactly the given distinct nodes |
| Engine.ComponentsOf | ledger.py:636-641 | the components of every account string |
| Engine.EnsuredAt | ledger.py:612-626 | the nodes of one ensured path, per key |
| Engine.EnsuredAllKeys | ledger.py:628-641 | after building, the nodes are the old ones plus every prefix of every account |
| Engine.EnsuredAllKept | ledger.py:604-610 | existing nodes keep their name and balances |
| Engine.EnsuredAllNew | ledger.py:604-610 | a new node has empty balances and the spelling of the first account that reached it |
| Engine.EnsuredAllFlags | ledger.py:625-626 | a node has own postings iff it had them or some account ends at it |
| Engine.EnsuredAllClosed | ledger.py:628-641 | the built tree is prefix-closed |
| Engine.AccountTreeFromAccountStrings | ledger.py:636-641 | the new tree is every string's path ensured in turn, from the root alone |
| Engine.AccountTreeFromTransactions | ledger.py:628-634 | the new tree is every posting's account ensured in turn |
| Engine.CreditedSums | ledger.py:707-714 | the credited balance of a unit is the old one plus the sum of that unit's quantities |
| Engine.BookingAt | ledger.py:707-714 | one booking, per node: on the path the unit is added, elsewhere nothing changes |
| Engine.BookedAllKeys | ledger.py:699-714 | booking never adds or removes a node |
| Engine.BookedAllOk | ledger.py:720-722 | booking a list succeeds iff every posting can be booked |
| Engine.BookedAllBalances | ledger.py:716-723 | after booking, a node's balances are its old ones plus the postings under it |
| Engine.BookedAllFlags | ledger.py:711 | a node has own postings iff it had them or some booked posting names it |
| Engine.BookedAllAppend | ledger.py:720-722 | booking a + b is booking a, then b |
| Engine.BookAll | ledger.py:720-722 | the posting loop books the list in order, or reports its first error |
| Engine.BookTransaction | ledger.py:719-722 | one transaction: its postings are booked when the as-at date includes it, and the tree is untouched otherwise |
| Engine.BookSelected | ledger.py:718-722 | the transaction loop books exactly the selected postings |
| Engine.CalculateBalances | ledger.py:716-723 | the new tree is Calculated(ts, as_at), or its error |
| Engine.CalculatedOk | ledger.py:716-723 | succeeds iff every selected posting has an amount |
| Engine.CalculatedBalances | ledger.py:716-723 | each node's balance in a unit is the sum over the selected postings under it |
| Engine.CalculatedAccounts | ledger.py:716-723 | the nodes are the root and the prefixes of all accounts, dated or not; own postings iff some posting names the node |
| Engine.CalculatedNames | ledger.py:597-610 | each node keeps the spelling of the first posting that reached it |
| Verify.SortByDate | ledger.py:405 | the sort keeps the number of verifications |
| Verify.InsertElements | ledger.py:405 | insertion keeps the multiset and adds the new element |
| Verify.InsertOrdered | ledger.py:405 | insertion keeps the list date-ordered |
| Verify.InsertOnDate | ledger.py:405 | insertion puts the new element after the others of its date (stability) |
| Verify.SortByDateMeaning | ledger.py:405 | the result is date-ordered, a permutation, and stable: each date's entries keep their input order |
| Verify.VerifyBalance | ledger.py:380-391 | a check reports the verification it checked |
| Verify.VerifyBalanceCases | ledger.py:380-391 | a missing account is an error; otherwise the account's balances decide the check |
| Verify.CheckBalances | ledger.py:383-391 | not exactly one unit is an error; passed iff the single amount equals the verification's; formatting errors of the message are kept |
| Verify.DueFromMeaning | ledger.py:408 | the first transaction dated strictly after d |
| Verify.PlanIfShape | ledger.py:407-418 | in the source's schedule, each verification is checked before a transaction dated strictly after it, at most one per transaction; the rest at the end |
| Verify.PlanWhileDue | ledger.py:407-418 | in the corrected schedule, each verification is checked just before the first transaction dated after it |
| Verify.RunIfFollows | ledger.py:407-418 | every check of the source's merge runs against the tree booked up to its planned transaction |
| Verify.RunWhileFollows | ledger.py:407-418 | the same for the corrected merge |
| Verify.DueFromSplits | ledger.py:408 | on date-sorted transactions, the transactions before the due index are dated on or before d and the rest after |
| Verify.BookedUpToPostings | ledger.py:413-414 | booking the first i transactions is booking their postings |
| Verify.VerifiedMeaning | ledger.py:393-423 | the final tree is calculate_balances'; every verification is checked exactly once, in stable date order, against the tree after the transactions its schedule names |
| Verify.VerifiedFixedMeaning | ledger.py:393-423 | in the corrected merge each verification sees exactly the transactions dated on or before it |
| Verify.IfChecksLate | ledger.py:408-411 | finding: with two verifications dated before two transactions, the source checks the second one after the first transaction's bookings |
| Verify.Failed | ledger.py:389 | the flag loop reports whether any check failed |
| Verify.ExitAsWritten | ledger.py:420-422 | as written, the exit never fires: the result is the run itself |
| Verify.Exit | ledger.py:420-422 | corrected: with exit_on_failure, any failed check turns the run into VerificationFailed |
| Verify.FailedCheckIgnored | ledger.py:389 | finding: a failed check under exit_on_failure passes as written and fails when corrected |
| Verify.CheckHead | ledger.py:410 | checks the head of the queue against the current tree |
| Verify.TransactionStep | ledger.py:407-414 | one iteration as written (one `if`, then the postings) is StepIf |
| Verify.RunTransactions | ledger.py:407-414 | the transaction loop as written is RunIf |
| Verify.TransactionStepFixed | ledger.py:407-414 | one corrected iteration (a `while`, then the postings) is StepWhile |
| Verify.RunTransactionsFixed | ledger.py:407-414 | the corrected transaction loop is RunWhile |
| Verify.DrainQueue | ledger.py:416-418 | the final loop checks every remaining verification against the full tree |
| Verify.VerifyBalances | ledger.py:393-423 | the method as written gives Verified's tree and checks, or its error |
| Verify.VerifyBalancesFixed | ledger.py:393-423 | the corrected method gives VerifiedFixed's tree and checks, with the exit honoured |
| Reports.Children | ledger.py:567 | the sub-account keys of a node |
| Reports.SortedSet | ledger.py:567-568 | the keys in strictly ascending order, each exactly once |
| Reports.SortedChildrenMeaning | ledger.py:567-569 | the sub-accounts are visited in ascending key order, each exactly once |
| Reports.WalkShown | ledger.py:574-580 | a node is printed iff it is not collapsed (one sub-account, no own postings) |
| Reports.WalkNodeFirst | ledger.py:574-580 | a node's entry comes first, with its depth and prefix + name |
| Reports.WalkCovers | ledger.py:562-581 | the walk visits exactly the nodes below the start |
| Reports.ChartLines | ledger.py:575-580 | every chart line begins with its indent |
| Reports.ChartLinesCount | ledger.py:562-581 | one line per shown node |
| Reports.ShownEntries | ledger.py:574-580 | the printed entries in walk order: each is a walk entry that is not collapsed, as many as ShownCount |
| Reports.ChartLinesMeaning | ledger.py:575-580 | line k is the indent, two spaces per level of depth and the text (prefix + name) of the k-th printed entry |
| Reports.AncestorSpellings | ledger.py:650-654 | the original spellings of the ancestors, outermost first |
| Reports.OriginalPrefix | ledger.py:643-659 | corrected: an error iff some ancestor is missing from the tree, otherwise the corrected prefix (spellings joined by colons) |
| Reports.PrefixAsWritten | ledger.py:650-656 | as written: when no ancestor's spelling holds a colon, the prefix holds none before its last character, so the ancestors run together |
| Reports.PrefixFixedSplits | ledger.py:643-659 | the corrected prefix followed by the node's name splits on `:` back into the original spellings |
| Reports.PrefixAsWrittenLosesColon | ledger.py:653-656 | finding: Expenses:Food:Lunch gives "ExpensesFood:" as written, "Expenses:Food:" corrected |
| Reports.FindOriginalPrefix | ledger.py:643-659 | the method returns OriginalPrefix, the corrected prefix |
| Reports.PrefixWalk | ledger.py:645-657 | the walk gives the corrected prefix, or AccountNotFound |
| Reports.NamedStep | ledger.py:733-738 | a missing named account is AccountNotFound; otherwise the rows are BalanceRows of the found node walked alone at depth 0 under its corrected prefix; each row has three cells |
| Reports.BalanceRowsOk | ledger.py:744-761 | the rows exist iff every node walked, shown or collapsed, has nil or a single AUD balance |
| Reports.BalanceRowsFail | ledger.py:748 | one node walked whose balance cannot be formatted makes the rows an error |
| Reports.BalanceRowsExist | ledger.py:744-761 | the rows exist when every node walked has a formattable balance |
| Reports.BalanceRowsMeaning | ledger.py:744-761 | one row per printed entry, in walk order; row k is BalanceRow of the k-th printed entry: the stars for its depth, its balance formatted, and its text indented two spaces per level |
| Reports.NamedRowsFound | ledger.py:732-739 | when the named rows succeed, every named account was found |
| Reports.NamedRowsShape | ledger.py:732-739 | every named row has three cells |
| Reports.RowsForAppend | ledger.py:732-739 | for any step, the rows of a + b are those of a followed by those of b, the first error winning |
| Reports.NamedRowsAppend | ledger.py:732-739 | the rows for names a + b are the rows for a followed by those for b; the first error met, in the order of the names, is the result |
| Reports.NamedRowsSingle | ledger.py:733-738 | the rows for one name are NamedStep's |
| Register.Row | ledger.py:834-838 | a row carries the transaction's date and description and the posting's account |
| Register.PostingsUnaffected | ledger.py:830 | postings that do not affect the account leave the register untouched |
| Register.RegisterIsRunning | ledger.py:824-839 | the register equals one driven by a running sum of the affecting postings' amounts |
| Register.RunningPostingsRows | ledger.py:829-838 | rows are only appended; new rows are dated in range and name an affected account |
| Register.RunningTransactionsRows | ledger.py:829-838 | the same over transactions |
| Register.RegisterRows | ledger.py:832-838 | every register row is in the date range and names an account the target contains |
| Register.Lifted | ledger.py:824-839 | the method's rows and tree are the specification's state |
| Register.RegisterPosting | ledger.py:831-838 | one posting: booked, then a row when in range |
| Register.RegisterEach | ledger.py:830-838 | the posting loop |
| Register.RegisterTransaction | ledger.py:829-838 | one transaction's filtered postings |
| Register.RegisterAll | ledger.py:829-838 | the transaction loop |
| Register.CalculateRegister | ledger.py:824-839 | the method computes CalculatedRegister |
| Columns.Width | ledger.py:74 | the width is at least every cell of the column, and equals one of them |
| Columns.MaxWidth | ledger.py:74 | the `max` loop computes Width |
| Columns.WidthSameColumn | ledger.py:52-56 | tables that agree on a column have the same width there |
| Columns.JoinColumns | ledger.py:31-35 | one line per row, each the row's cells joined by the separator |
| Columns.JoinColumnsSplit | ledger.py:31-35 | with a one-character separator found in no cell, each line splits back into its row |
| Columns.JustColumn | ledger.py:59-97 | same rows and cells, except the column, whose cells are padded to its maximum width |
| Columns.RjustColumn | ledger.py:59-77 | pads on the left; every other cell and the row count are unchanged |
| Columns.LjustColumn | ledger.py:79-97 | pads on the right; every other cell and the row count are unchanged |
| Columns.JustifiedCells | ledger.py:59-97 | a padded cell has the column's width and keeps its text, at the end (rjust) or at the start (ljust) |
| Columns.JustifyColumns | ledger.py:37-57 | every cell is left- or right-justified to its column's width when its letter is L/R in either case, else unchanged |
| Columns.JustifyLeftRightExample | test_ledger.py:13 | "LR" turns [[aaaa, b], [c, ddd]] into [[aaaa, "  b"], ["c   ", ddd]] |
| Columns.JustifyRightLeftExample | test_ledger.py:14 | "RL" turns it into [[aaaa, "b  "], ["   c", ddd]] |
| Columns.JustifyEmptyExample | test_ledger.py:15 | justifying no rows with "RL" gives no rows |
| Columns.JoinColumnsExample | test_ledger.py:10 | [[a, b], [c, d]] joins into ["a b", "c d"] |

## Left out

- `main`, argparse and `validate_one_date_or_two` (ledger.py:764-786, 854-973) are command-line plumbing.
- `parse_file`, `print_transactions`, `print_accounts`, `print_single_unit_balances` and `print_register` only read files or write to stdout. The computations they call are modelled. This includes the register's justification (Columns) but not its reversal of the printed lines.
- The two-date branch of `print_single_unit_balances` (ledger.py:804-822) re-parses printed amounts through `float` and only prints.
- `extract_accounts` (ledger.py:542-555) is unused by the program.
- `filter_by_date` (ledger.py:332-339) and the `dateutil` library are left out. `is_valid_date` and `isoformat` are the fields of the `DateParser` parameter, with no assumption about them.
- Floating point is left out. `parse_amount` and `format_amount` go through `float` and `round`. The model uses exact decimals with at most two places, so an amount with more places is an InvalidAmount error here, while the source would round it. Formatting uses exact cents, where the source prints a `float`.
- Messages are left out. Everything written to stderr or stdout becomes the fields of an error value or `Check` record. The `verbose` printing is not modelled, beyond the point that formatting its amount can fail.
- Exceptions other than the program's own checks are left out. An empty header line becomes the error MissingToken: the source would fail with `IndexError` at ledger.py:366, because `split()` is then empty. The same applies to a posting line with fewer than two tokens (ledger.py:476-477). A posting with a nil amount is an error in the booking and balance code, where the source would raise a `KeyError`.
- Python's dictionary order is left out. `balance_amounts` returns a list in dictionary order; the model returns the per-unit map. `extract_single_unit_amount` takes `values()[0]` of a one-key dictionary, which is order-independent.
- Amounts.ParseAmount: `float` also accepts forms such as exponents, `inf` and surrounding spaces. The model accepts only an optional sign, digits and at most two decimals, and reports the rest as InvalidAmount.
- The seven-account tree and its ten-line chart (test_ledger.py:55-135) are not restated as concrete lemmas. Neither is the four-level `account_string_and_parents` example (test_ledger.py:137-141). Evaluating the account functions on those long string constants is beyond the verifier's resource limit. The general lemmas state the rule those expected values follow: EnsuredAll*, CalculatedAccounts, WalkCovers, WalkShown, WalkNodeFirst and AncestorNames.
- Reports.ChartOfAccounts and Reports.SingleUnitBalances are the report functions and carry no ensures of their own. Their contents are stated by lemmas about the parts they are built from: the walk (WalkShown, WalkNodeFirst, WalkCovers), the lines of the chart (ChartLinesMeaning), the rows of the balance report (BalanceRowsOk, BalanceRowsMeaning) and the named rows (NamedStep, NamedRowsAppend, NamedRowsSingle).
- Reports.NamedStep, Reports.OriginalPrefix, Reports.FindOriginalPrefix, Reports.PrefixWalk: these use the corrected prefix of `find_original_prefix` (ledger.py:643-659), not the prefix as written (Reports.PrefixAsWritten). So for the named account Expenses:Food:Lunch the named balance report (ledger.py:732-739) shows `Expenses:Food:Lunch`, where the source as written prints `ExpensesFood:Lunch`. See "Findings".

## Findings

| source | as written | input that shows it | evidently intended | confidence | as-written member | corrected member |
|---|---|---|---|---|---|---|
| ledger.py:407-411 | one `if` per transaction checks at most one pending verification before that transaction's postings are booked | verifications dated "1" and "1", transactions dated "2" and "3": the second verification is checked after transaction "2" is booked | `while`: check every verification dated before the transaction | not executed | Verify.IfChecksLate | Verify.VerifiedFixedMeaning |
| ledger.py:389, 420-422 | `verify_failed = True` sets a local of `verify_balance`, so the test at ledger.py:420 always reads the `False` of ledger.py:403 and never exits | one failing check with exit_on_failure | exit with failure when any check failed | not executed | Verify.FailedCheckIgnored | Verify.Exit |
| ledger.py:653-656 | `result += account_tree['name']` joins the ancestors' spellings with no `:` between them | Expenses:Food:Lunch gives "ExpensesFood:" | "Expenses:Food:", so that prefix + name is the original account string | not executed | Reports.PrefixAsWrittenLosesColon | Reports.PrefixFixedSplits |

The rest of the model uses the corrected prefix in the balance report (Reports.NamedStep). It provides both variants of `verify_balances`: Verify.VerifyBalances as written and Verify.VerifyBalancesFixed corrected.
