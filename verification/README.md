# Verified model of EJO 100's algorithmic core

This project models the parts of the EJO 100 repository whose comments make strong claims, and
proves those claims, or finds exactly when they hold. It has nine parts.

**Tree export** (`FlatTrees`, `TableWalks`, `LightGbm`, `IsolationForest`, `Floats`). The trainer compiles a nested
LightGBM tree, or an array-encoded scikit-learn isolation tree, into a pre-order node table in which
negative references are leaves; loops in Python and in the portal then walk the table. `Flatten` says
which table a tree becomes and `Decode` reads any forward-pointing table back. The recursive builders,
which append a placeholder, build both subtrees and then fill the placeholder, are proved to produce
`Flatten`'s table; the evaluators' loops are proved to answer as `Decode`'s tree does; and decoding
undoes flattening. On tables from anywhere a walk may also leave the table or go round for ever; the portal's
guard is proved to stop exactly the walks that never end. Hence an exported tree answers every input, missing and zero values included, as
LightGBM's own rule does on the nested tree, and an exported isolation tree reaches the same leaf, at the
same depth and with the same sample count, as the array tree on the estimator's own features.

**Customer money** (`Calendar`, `Decimals`, `Ledger`, `SpendBuckets`, `CustomerMoney`). A customer's yearly
spend is computed twice: by comparing instants, and by month buckets found through a text key. The months
are proved to be the calendar's (by summing month lengths and, independently, by the ECMAScript year
formula), the key to identify the month, each bucket to be a stretch of time, and the stretches to tile the
year. So the two figures differ by exactly what is dated after `now` in the current month, and are not a
number exactly when one of the year's amounts is not.

**Tags** (`Tags`, `JsStrings`). Squashing, de-duplication, printing and parsing back.

**Submission limiter** (`RateLimiter`, `RequestKeys`, `LimiterRuns`). A class over one mutable map, with a lazy sweep
and a full clear, under keys read off the headers, against the history of each key's own posts, and over whole runs of requests.

**Claim, then send** (`Claims`, `Delivery`). A state machine over any interleaving of delivery runs with
stale snapshots, edits and stamp resets; and the loops of one run, against whatever everyone else does.

**Employee IDs** (`EmployeeIds`, `StaffCodes`, `StaffNumbers`). Codes, prefixes, formatting, reading back, the next number, and
runs in which accounts are created, by several administrators at once, and deleted.

**Access notices** (`AccessNotices`). Windows of successive runs, and the fold of a window to last states.

**Live updates and search boxes** (`LiveUpdates`, `SearchBoxes`). The refs of the notification provider and the
request counters of the two search boxes, over every interleaving of answers.

**Data split** (`TimeSplit`).

Callbacks, the database, clocks, the mail server, lower-casing, Unicode normalisation, the cast to 32-bit
floats and floating-point addition are parameters, so the results hold for any of them.

## Where the code does not do what is written about it

The model follows the code; each of these is a proved lemma or an explicit term in one.

- The limiter is described as "at most 120 a minute" (`apps/portal/middleware.ts:20-21`). In a fixed window
  that is not so: a run of requests from one address can get 239 posts through in 60 seconds, and in a run
  without a full clear never more (`MoreThanLimitInAMinute`, `RunAdmitsUnderTwiceLimit`); likewise one person
  239 and a shared address 2,999 (`PersonOverLimit`, `OfficeOverLimit`). Absent a full clear, a key's limit
  holds for the 60 seconds from a moment exactly when it then has no live window or a full one
  (`LimitHoldsExactly`, `LimitHoldsExactlyInRuns`); each full clear in them adds at most one more limit
  (`RunAdmitsWithClears`).
- A broadcast is "claimed first so two runs never both send it", and "each reminder goes out ONCE"
  (`apps/portal/lib/appointment-reminders.ts:8`). Both hold as long as nothing else empties the stamp, but
  `apps/portal/lib/actions/notifications.ts:366` and `apps/portal/lib/actions/scheduling.ts:260` empty it on
  purpose. A record is sent at most once more than its stamp was emptied, and that bound is reached
  for every number of times (`SentAtMostOnce`, `ResentAfterResets`).
- Tags given as a list may contain commas and then do not survive printing and parsing; the round trip
  holds exactly when no tag has a comma (`PrintThenParse`, `CommaExample`).
- An employee number is "never reused" (`apps/portal/lib/employee-id.ts:9`). The next number is one above the
  largest of the accounts there are, and accounts can be deleted for good (`apps/portal/lib/staff-delete.ts:85`).
  Over every run of hires and deletions, the next ID was issued before exactly when the largest number present
  is below the largest ever issued, or nine digits are used up and the first ID beyond them was issued
  (`NextReused`): delete the account with the last number and the next person gets it (`DeletedNumberReturns`).
  Without a deletion no ID is issued twice (`PresentDistinct`).
- An organisation's code is described as "2–3 letters". It has one character exactly for a one-letter one-word
  name, and it may hold digits: "3M Ltd" becomes "3L" (`OrganisationCodeIsCode`,
  `DigitInOrganisationCode`).
- Access notices promise that "no change is missed or emailed twice". Over successful runs none is read twice,
  and none is missed exactly when no run finds a change over a week old or more than 2,000 of them
  (`WindowsDisjoint`, `EachChangeReadOnce`). A run that fails after emailing some roles stores nothing, so its
  changes are read, and those roles emailed, again (`FailedRunReadAgain`).
- "The next check picks it up" (`apps/portal/components/NotificationProvider.tsx:18-19`) holds for every change
  but the one the first check sees: it remembers a pulse without loading. It hides a change exactly when the
  server has by then moved past the last load, and no further since it answered; if it hides none, none is
  ever hidden (`UncoveredStaysPending`, `FirstAnswerHides`, `NothingHiddenLater`,
  `FirstCheckCanHideAChange`). The comment there about ten seconds is out of date: the constant is thirty.
- The yearly figure stops at `now` and skips amounts that are not finite; the buckets run to the end of the
  month and are spoilt by such amounts (`YearOfBuckets`, `YearAgrees`).

## Model

| member | source | states |
|---|---|---|
| FlatTrees.OneMoreLeafThanSplits | ml/ejo_ml/export.py:29-47 | every tree has one more leaf than splits, so the table has one more leaf than rows |
| FlatTrees.RowsPointAhead | ml/ejo_ml/export.py:29-47 | each row's two references are later rows of the same subtree or leaves of that subtree: the evaluator's loop moves forward and ends |
| FlatTrees.RowsReferences | ml/ejo_ml/export.py:29-47 | counting references in a subtree's rows and to its root: each of its rows and leaves exactly once, anything else never |
| FlatTrees.EachReferencedOnce | ml/ejo_ml/export.py:29-47 | in a table with rows, every row but the root and every leaf is some row's child exactly once, and nothing else is referenced |
| FlatTrees.FlattenForward | ml/ejo_ml/export.py:35-52 | an exported table points forward and has one more leaf than rows |
| FlatTrees.RootRow | ml/ejo_ml/export.py:35-52 | the root split is row 0, its left child row 1 or leaf 0, its right child right behind the whole left subtree |
| FlatTrees.DecodeRows | ml/ejo_ml/export.py:56-74 | wherever a tree's rows stand in a forward table, reading the table from their reference gives that tree back, leaves numbered in order |
| FlatTrees.RoundTrip | ml/ejo_ml/export.py:29-52 | decoding the flattened tree gives the tree, its leaves numbered in pre-order |
| FlatTrees.RowsKeepRules | ml/ejo_ml/export.py:35-47 | row i holds the i-th split of the tree in pre-order |
| FlatTrees.FillSlot | ml/ejo_ml/export.py:35-47 | a placeholder kept, both subtrees added, the placeholder filled: exactly the whole tree's rows and leaves have been appended |
| FlatTrees.FlattenPreservesMeaning | ml/ejo_ml/export.py:29-74 | for every way of answering the splits, the table leads to the leaf the tree leads to, over as many splits |
| FlatTrees.PickInRange | ml/ejo_ml/export.py:61-74 | from any row of a sound table the walk ends at a leaf that exists |
| FlatTrees.FlattenAnswers | ml/ejo_ml/export.py:29-74 | an exported table is sound and answers every input as the recursive tree does |
| LightGbm.Builder.Walk | ml/ejo_ml/export.py:29-47 | the recursive `walk` appends exactly the subtree's rows and leaves and returns its reference; it fails exactly on the first non-numerical split or unknown missing mode, in the source's order |
| LightGbm.LgbmTrees | ml/ejo_ml/export.py:22-53 | every tree becomes its flat table, or the call fails with the first defect of the first defective tree |
| LightGbm.ExportableExactly | ml/ejo_ml/export.py:33-46 | a tree exports if and only if every split in it has decision type "<=" and a missing type that is absent or one of "None", "Zero" and "NaN" |
| LightGbm.FirstDefect | ml/ejo_ml/export.py:29-47 | the error is the first, in the order of the walk, of all checks that fail: a split's comparison before its children, its missing type after them |
| LightGbm.LeafOf | ml/ejo_ml/export.py:56-74 | on every table, well formed or not, on which the loop ends: the leaf the walk comes to, for NaN and every missing mode, or the error of a row that is not there |
| LightGbm.GoesLeftInNumbers | ml/ejo_ml/export.py:64-71 | in numbers: a value goes left if and only if it is at most the threshold, within 1e-35 of zero under code 1 and NaN under codes 1 and 2 as the default says, NaN under code 0 as zero; the infinities too |
| LightGbm.SplitsLeftInNumbers | ml/ejo_ml/export.py:64-71 | the same of LightGBM's split rule on the dump, missing type by missing type |
| LightGbm.EvaluateStep | ml/ejo_ml/export.py:39-47 | one step of the recursive reading: the left child of the dump for values at most the threshold, missing values by default |
| LightGbm.OneSplit | ml/ejo_ml/export.py:56-74 | so a table of one row leads to its left leaf exactly for values at most the threshold |
| LightGbm.ForwardEnds | ml/ejo_ml/export.py:56-74 | on a forward table, as every exported and every accepted one is, the walk ends at the leaf the recursive reading of the table picks |
| TableWalks.NoRowTwice | ml/ejo_ml/export.py:61-74 | a walk that ends visits no row twice: it has room for all the rows it passed |
| TableWalks.EndsWithinRows | apps/portal/lib/enyo/ml/runtime-core.ts:62-74 | a walk that ends at all does so within as many rows as the table has, with the same outcome |
| TableWalks.EndsOrNever | apps/portal/lib/enyo/ml/runtime-core.ts:62-74 | a walk ends if and only if it has ended after that many rows |
| TableWalks.ForwardWalk | ml/ejo_ml/export.py:56-74 | from any reference of a forward table the walk ends at the decoded tree's leaf within the rows that follow |
| LightGbm.Boosted | ml/ejo_ml/export.py:77-78 | the score is whatever `sum` makes of the values of the leaves reached, tree by tree |
| LightGbm.ReadEvaluates | ml/ejo_ml/export.py:39-46 | following the exported rules recursively gives what LightGBM's split rule, written per missing mode, gives on the dump |
| LightGbm.ExportPreservesTree | ml/ejo_ml/export.py:22-74 | for every exportable tree and every input the table's answer is the recursive evaluation of the nested tree |
| LightGbm.ExportPreservesScore | ml/ejo_ml/export.py:22-78 | the exported trees reach exactly the values of the recursive evaluations, so every way of summing them gives the same score |
| LightGbm.ExactScore | ml/ejo_ml/export.py:77-78 | with exact addition the sum of finite leaf values is their sum as reals, from 0 |
| LightGbm.GateIsSafe | apps/portal/lib/enyo/ml/artifact-core.ts:136-165 | whatever table the portal's gate accepts, exported or not, every input's walk ends at an existing leaf |
| LightGbm.GateTakesExactly | apps/portal/lib/enyo/ml/artifact-core.ts:136-165 | over all tables: the gate takes exactly the sound ones of at most 1,024 rows and 1,025 leaves with finite numbers, known features and missing codes 0 to 2, a table without rows having one leaf |
| LightGbm.GateAcceptsExports | apps/portal/lib/enyo/ml/artifact-core.ts:136-165 | the gate accepts an exported tree if and only if it has at most 1,024 splits, finite thresholds and leaves, and known features |
| LightGbm.PortalLeafOf | apps/portal/lib/enyo/ml/runtime-core.ts:59-75 | on every table whatever, the portal's guarded loop gives the outcome of the walk: the leaf, a missing row, or the guard's error, the last if and only if the walk would never end |
| LightGbm.PortalBoosted | apps/portal/lib/enyo/ml/runtime-core.ts:78-82 | the portal's score adds the same leaf values from 0, in any arithmetic |
| IsolationForest.LaterChildrenUnfold | ml/ejo_ml/export.py:107-117 | an array tree that numbers children after their parent unfolds to a finite tree, so the recursive `walk` ends |
| IsolationForest.UnfoldsOnce | ml/ejo_ml/export.py:107-117 | the arrays determine that tree |
| IsolationForest.Builder.Walk | ml/ejo_ml/export.py:107-117 | the recursive `walk` appends exactly the subtree's rows over the original feature numbers, and its leaves' ids and sample counts in step |
| IsolationForest.IForestTrees | ml/ejo_ml/export.py:98-123 | every estimator becomes the flat table of its tree with one zero and one sample count per leaf |
| IsolationForest.ReachLeaf | ml/ejo_ml/export.py:137-147 | the loop counts the splits on the path (none for a single leaf) and returns the leaf the table's tree picks |
| IsolationForest.DepthSum | ml/ejo_ml/export.py:134-148 | the loop folds each tree's depth and reached sample count, in order, with any arithmetic |
| IsolationForest.BelowInNumbers | ml/ejo_ml/export.py:143 | in numbers: left if and only if the cast value is at most the threshold; NaN never, the infinities too |
| IsolationForest.DescendStep | ml/ejo_ml/export.py:137-147 | one step down the arrays: left for an own value at most the threshold, else right, one deeper |
| IsolationForest.DescendOnFull | ml/ejo_ml/export.py:116-143 | on the full vector a node compares the entry numbered `feats` of its feature, cast, with its threshold |
| IsolationForest.FoldIsSum | ml/ejo_ml/export.py:134-148 | in exact arithmetic the fold is the sum, over the trees by index, of the path length plus what `c` makes of the sample count of the leaf reached |
| IsolationForest.ExactDepthSum | ml/ejo_ml/export.py:134-148 | so that sum over all trees, each once, is what the loop returns, for every `c` in place of the average path length |
| IsolationForest.RenamedDescends | ml/ejo_ml/export.py:116-143 | descending the arrays on the estimator's own feature subset is following the renamed splits on the full vector: same leaf, same depth |
| IsolationForest.ExportPreservesVisit | ml/ejo_ml/export.py:98-148 | on the full feature vector the exported tree reports the depth and the sample count of the leaf the original array tree reaches |
| IsolationForest.ExportPreservesDepthSum | ml/ejo_ml/export.py:98-148 | hence the depth sum over the exported forest is the one over the original trees |
| IsolationForest.LeafSamplesAddUp | ml/ejo_ml/export.py:108-110 | if every split divides its samples between its children, the exported leaf counts add up to the root's |
| Calendar.YearLength | apps/portal/lib/crm.ts:192 | the ECMAScript year formula gives leap years 366 days and others 365 |
| Calendar.MonthsOfYear | apps/portal/lib/crm.ts:250 | month starts within a year follow the standard's month table |
| Calendar.JanuaryByFormula | apps/portal/lib/crm.ts:192 | counting month by month reaches 1 January where the year formula puts it, in every year |
| Calendar.MonthStartByFormula | apps/portal/lib/crm.ts:250 | the first of every month, counted and by formula, is the same day |
| Calendar.MonthFrom | apps/portal/lib/crm.ts:186 | the month found for a day starts no later than the day and ends after it |
| Calendar.LagosMonthBounds | apps/portal/lib/crm.ts:185-187 | the month of an instant is the one between whose Lagos midnights it lies |
| Calendar.InMonths | apps/portal/lib/crm.ts:185-187 | an instant's Lagos month lies in a range if and only if the instant lies between the range's midnights |
| Calendar.KeyParts | apps/portal/lib/crm.ts:186 | a four-digit-year key has seven characters and reads back as year and month |
| Calendar.KeyIdentifiesMonth | apps/portal/lib/crm.ts:253-259 | a month of a four-digit year shares its key with no other month, whatever the other's year |
| Calendar.KeysShared | apps/portal/lib/crm.ts:253-259 | over all years JavaScript can date, two months share a key if and only if they are equal or lie in one year that is written with a sign |
| Calendar.YearStartsInJanuary | apps/portal/lib/crm.ts:190-193 | the year start read off the key's digits is Lagos midnight of that year's January |
| Calendar.LagosNewYear | apps/portal/lib/crm.ts:185-193 | concrete instants: the key changes from 2024-12 to 2025-01 at 23:00 UTC on 31 December 2024, to the millisecond |
| Decimals.FieldValue | apps/portal/lib/crm.ts:186 | a zero-padded field wide enough for its number reads back as the number |
| Decimals.DecimalValue | apps/portal/lib/employee-id.ts:46 | a number's decimal form reads back as the number |
| Decimals.DecimalFits | apps/portal/lib/employee-id.ts:53 | a number has at most w digits if and only if it is below 10^w |
| Ledger.SumStep | apps/portal/lib/crm.ts:255-259 | one more entry changes a stretch's total exactly when its instant is in the stretch, and spoils it exactly when its amount is not finite |
| Ledger.WithinSplit | apps/portal/lib/crm.ts:219-220 | cutting a stretch of time in two cuts its total in two |
| Ledger.NetSplit | apps/portal/lib/crm.ts:237 | the same for payments less refunds plus SAP invoices, and for whether they are finite |
| Ledger.StretchesPartition | apps/portal/lib/crm.ts:254-260 | consecutive stretches' nets add up to the net of the whole: nothing lost, nothing twice |
| Ledger.NetWithPayment | apps/portal/lib/crm.ts:207-237 | one more payment, at any place of any job, cancelled or not, adds to the net of a stretch exactly if it is finite and dated in it |
| Ledger.NetWithRefund | apps/portal/lib/crm.ts:208-237 | one more refund takes away likewise |
| Ledger.OutstandingBounds | apps/portal/lib/crm.ts:215-216 | what is owed is never negative, never below billed less net paid over finished jobs, and equal to it if and only if no finished job is over-paid |
| Ledger.OutstandingWithJob | apps/portal/lib/crm.ts:213-216 | one more job adds what it is billed for beyond its payments less refunds, if finished and not cancelled and if that is positive, else nothing |
| Ledger.OverPaymentHidesNothing | apps/portal/lib/crm.ts:215-216 | an over-paid job, wherever it stands in the list, changes nothing that is owed |
| SpendBuckets.SpendMonth.Add | apps/portal/lib/crm.ts:255-259 | one column of one bucket grows by the amount; the others keep their value |
| SpendBuckets.SpendMonth.Close | apps/portal/lib/crm.ts:260 | net becomes paid less refunds plus SAP; the other columns keep their value |
| SpendBuckets.NewBuckets | apps/portal/lib/crm.ts:248-253 | one zero bucket per month, oldest first, each found by its own key |
| SpendBuckets.Book | apps/portal/lib/crm.ts:255-259 | an entry goes into one column of the one bucket with its key, if there is one, and nowhere else |
| SpendBuckets.BookAll | apps/portal/lib/crm.ts:255-259 | a whole list of entries does |
| SpendBuckets.Fill | apps/portal/lib/crm.ts:254-260 | after the loops every bucket holds, column by column, what its key collects from all jobs and invoices |
| SpendBuckets.Spend | apps/portal/lib/crm.ts:246-262 | the buckets returned, their keys, columns and nets, for any key function with distinct keys |
| SpendBuckets.SpendUpTo | apps/portal/lib/crm.ts:246-262 | the buckets as rows of key and net, month by month up to the given one, for any way of writing keys that keeps those months apart; each bucket's fields hold what its key collects |
| SpendBuckets.YearOfRows | apps/portal/lib/crm.ts:246-262 | when the rows whose key begins with a year's digits are those from its January on, they sum to the nets from there |
| SpendBuckets.NetOfBucket | apps/portal/lib/crm.ts:260 | a closed bucket's net is what its key collects from payments, less refunds, plus invoices |
| SpendBuckets.BucketWithPayment | apps/portal/lib/crm.ts:255 | one more payment, of any job, goes to the bucket of its key and no other |
| SpendBuckets.BucketWithRefund | apps/portal/lib/crm.ts:256 | one more refund likewise, taken away |
| SpendBuckets.BucketWithInvoice | apps/portal/lib/crm.ts:259 | one more SAP invoice likewise |
| SpendBuckets.BilledWithJob | apps/portal/lib/crm.ts:257 | one more job is billed under the key of its finishing time if it has one and is not cancelled, else nowhere |
| CustomerMoney.KeysDistinct | apps/portal/lib/crm.ts:249-253 | the keys of consecutive months are all different |
| CustomerMoney.MonthlySpend | apps/portal/lib/crm.ts:246-262 | as many buckets as asked for, consecutive Lagos months ending with the current one, each with its month's key and net, its fields holding what that key collects |
| CustomerMoney.PaymentCounts | apps/portal/lib/crm.ts:219-237 | a payment more, of any job, cancelled or not, adds its amount to the yearly figure if and only if it is finite and dated from the year's start to `now` |
| CustomerMoney.PaymentInMonth | apps/portal/lib/crm.ts:255 | and to a month's net if and only if it is dated in that Lagos month |
| CustomerMoney.RefundCounts | apps/portal/lib/crm.ts:219-237 | a refund more takes its amount from the yearly figure under the same condition |
| CustomerMoney.RefundInMonth | apps/portal/lib/crm.ts:256 | and from its month's net |
| CustomerMoney.InvoiceCounts | apps/portal/lib/crm.ts:219-237 | a SAP invoice more counts for the year like a payment |
| CustomerMoney.InvoiceInMonth | apps/portal/lib/crm.ts:259-260 | and for its month |
| CustomerMoney.NothingCounts | apps/portal/lib/crm.ts:206-262 | jobs without payments and refunds, and no invoices, come to zero in both |
| CustomerMoney.JobBilledInMonth | apps/portal/lib/crm.ts:257 | a job is billed in the month it was finished, if it was and is not cancelled |
| CustomerMoney.BucketIsStretch | apps/portal/lib/crm.ts:255-259 | what is collected under a month's key is exactly what lies between that month's Lagos midnights |
| CustomerMoney.NetIsStretch | apps/portal/lib/crm.ts:260 | so a bucket's net is the net of that stretch of time |
| CustomerMoney.BucketsPartition | apps/portal/lib/crm.ts:246-262 | over any run of months, across year boundaries, the buckets' nets add up to the net between the run's two midnights |
| CustomerMoney.YearAndRestOfMonth | apps/portal/lib/crm.ts:219-237 | the yearly figure plus what is dated later in the month is the net from January's midnight to the next month's |
| CustomerMoney.YearOfBuckets | apps/portal/lib/crm.ts:219-262 | for any entries, the current year's buckets exceed the yearly figure by exactly what is dated after `now` in the current month, and are not a number exactly when an amount of the year is not |
| CustomerMoney.YearAgrees | apps/portal/lib/crm.ts:219-262 | the two computations agree if and only if the year's amounts are finite and nothing nets in between `now` and the month's end |
| CustomerMoney.YearAgreesOnPastEvents | apps/portal/lib/crm.ts:219-262 | with finite amounts and nothing dated after `now` they agree |
| CustomerMoney.KeysOfYear | apps/portal/lib/crm.ts:246-262 | of all months up to the current one, exactly those from its January on have a key that begins with its year's digits |
| CustomerMoney.YearOfRowsUpTo | apps/portal/lib/crm.ts:246-262 | any twelve or more consecutive months reach back to January, and the rows under the last one's year sum to the nets from there |
| Tags.NormaliseTags | apps/portal/lib/crm.ts:72-81 | the result or error of the loop for text, list and missing input: the first spellings, the first tag that is too long, or too many |
| Tags.AcceptedExactly | apps/portal/lib/crm.ts:72-81 | accepted if and only if no part is longer than 30 characters and the parts have at most 12 spellings, case aside; then the first spellings; no input gives no tags |
| Tags.KeptPerSpelling | apps/portal/lib/crm.ts:75-78 | as many tags are kept as there are spellings, case aside |
| Tags.NamesTheFirst | apps/portal/lib/crm.ts:76 | a refusal for length names the first part longer than 30 characters |
| Tags.EachPiece | apps/portal/lib/crm.ts:73 | each piece of a list gives its squashed form, blank ones nothing, in place |
| JsStrings.SplitJoins | apps/portal/lib/crm.ts:73 | the pieces of a text have no commas, and joined with commas give the text back |
| JsStrings.TrimsAround | apps/portal/lib/crm.ts:22 | trimming takes off the white space around a text and nothing else |
| JsStrings.WhiteSpaceListed | apps/portal/lib/crm.ts:22 | white space is exactly the code points ECMAScript lists |
| JsStrings.WordsApart | apps/portal/lib/employee-id.ts:23 | white space keeps words apart: the words of a text followed by white space and another are those of the one, then of the other |
| JsStrings.OneWord | apps/portal/lib/employee-id.ts:23 | and nothing else does: a text without white space is one word, or none if empty |
| Tags.SquashSquashes | apps/portal/lib/crm.ts:22 | a squashed text has no white space at its ends and only single plain spaces inside |
| Tags.SquashKeeps | apps/portal/lib/crm.ts:22 | a squashed text, with or without a space before it, squashes to itself |
| Tags.SquashKeepsWords | apps/portal/lib/crm.ts:22 | squashing keeps exactly the words of the text, in order |
| Tags.SpellingsCover | apps/portal/lib/crm.ts:75-78 | every tag given is represented, and no two kept differ only in case |
| Tags.KeepsFirstSpellings | apps/portal/lib/crm.ts:70-78 | the tags kept are, in order, those at the first place of each spelling |
| Tags.DistinctKept | apps/portal/lib/crm.ts:75-78 | a list without repeats is kept whole |
| Tags.CleanSplitJoin | apps/portal/lib/crm.ts:72-73 | splitting and squashing a ", "-joined list of comma-free squashed tags gives the list back |
| Tags.AcceptedTags | apps/portal/lib/crm.ts:72-81 | an accepted result is at most 12 distinct, squashed, non-empty tags of at most 30 characters, comma-free when it came from text |
| Tags.FixedPoint | apps/portal/lib/crm.ts:72-81 | normalising a result again changes nothing |
| Tags.PrintThenParse | apps/portal/lib/crm.ts:72-81 | printing with ", " and parsing gives a result back if and only if none of its tags has a comma |
| Tags.TextRoundTrip | apps/portal/lib/crm.ts:72-81 | so every result that came from text survives |
| Tags.CommaTagLost | apps/portal/lib/crm.ts:73 | a listed tag with a comma is accepted and never read back |
| Tags.CommaExample | apps/portal/lib/crm.ts:73 | the tag "a,b" is one |
| RateLimiter.Limiter.Over | apps/portal/middleware.ts:42-48 | one post under one key: its window restarts or counts on, every other key keeps its window, and it is over exactly when its live window was full |
| RateLimiter.Limiter.Sweep | apps/portal/middleware.ts:40-41 | above 5,000 keys exactly the expired ones go; above 20,000 left, all go |
| RateLimiter.Limiter.TooManyPosts | apps/portal/middleware.ts:29-53 | the new map for every kind of request, and the verdict: some key the request counts under is full |
| RequestKeys.ForwardedClient | apps/portal/middleware.ts:31-51 | the first entry of x-forwarded-for, trimmed, decides whatever follows: anonymous posts count under exactly "anon:" and it, signed-in ones under exactly "auth:" and it and "s:" and the token's first 32 characters |
| RequestKeys.NoForwardedClient | apps/portal/middleware.ts:31-51 | without the header, or with a blank first entry, x-real-ip takes its place, and without that "unknown" |
| RequestKeys.SamePerson | apps/portal/middleware.ts:51 | two signed-in posts share a person's key if and only if their tokens agree on the first 32 characters |
| RequestKeys.LimitsInNumbers | apps/portal/middleware.ts:24-27 | 1,500 posts for a signed-in address, 120 for anyone else |
| RateLimiter.PreparedInNumbers | apps/portal/middleware.ts:40-41 | in numbers: up to 5,000 keys nothing goes; above, the windows older than 60,000 ms; and if more than 20,000 are left, all |
| RateLimiter.KeyFamilies | apps/portal/middleware.ts:49-51 | the three families of keys never collide, and a key's family fixes its limit |
| RateLimiter.WindowAdmitsFirstMax | apps/portal/middleware.ts:42-48 | within one window the first `max` posts are let through and every later one is refused |
| RateLimiter.UnderTwiceMaxPerMinute | apps/portal/middleware.ts:42-48 | fewer than 2 * max posts of one key are let through in any 60 seconds |
| RateLimiter.TwiceMaxLessOneReached | apps/portal/middleware.ts:42-48 | for every limit, one early post, the rest of its window's allowance at the window's end and all of the next one's just after get 2 * max - 1 through in 60 seconds, by the key's history |
| RateLimiter.AtMostRoomAndMax | apps/portal/middleware.ts:42-48 | after any history, a key gets through in 60 seconds at most what its live window still has room for, and one limit more |
| RateLimiter.RoomAndMaxReached | apps/portal/middleware.ts:42-48 | and after any history it can get exactly that much through |
| RateLimiter.LimitHoldsExactly | apps/portal/middleware.ts:42-48 | a key's limit holds over the 60 seconds from a moment, whatever is posted in them, if and only if at that moment it has no live window or a full one |
| RateLimiter.SweepUnobservable | apps/portal/middleware.ts:40-48 | absent a full clear, a key's live window is at any later moment the one its own posts would have left in a map that never deletes |
| RateLimiter.VerdictIsPerKey | apps/portal/middleware.ts:29-53 | so each verdict depends only on the earlier posts under the request's own keys |
| RateLimiter.OnlyNeverCleared | apps/portal/middleware.ts:40-41 | leaving out all traffic of one kind makes no full clear fire |
| RateLimiter.KindsDoNotInterfere | apps/portal/middleware.ts:32-51 | a post's verdict is the same when all traffic of the other kind (anonymous or signed in) never happened |
| RateLimiter.LetThroughAdmitted | apps/portal/middleware.ts:29-53 | over a run without a full clear, no more of a key's posts get through than its own history admits |
| RateLimiter.RunAdmitsUnderTwiceLimit | apps/portal/middleware.ts:19-53 | over such a run fewer than twice a key's limit get through in any 60 seconds |
| RateLimiter.RunAdmitsRoomAndLimit | apps/portal/middleware.ts:29-53 | over any run of requests without a full clear, a key gets through in 60 seconds at most the room its window in the map has left, and its limit |
| RateLimiter.AnonymousLetThrough | apps/portal/middleware.ts:42-49 | over any run without a full clear, an anonymous key gets through exactly what its own history admits |
| RateLimiter.OneAddress | apps/portal/middleware.ts:29-53 | anonymous posts of one address alone never trigger a full clear, and get through exactly as the history of their times admits |
| RateLimiter.MoreThanLimitInAMinute | apps/portal/middleware.ts:20-21 | a run of 240 anonymous posts from one address of which 239 get through in 60 seconds |
| RateLimiter.AddressLimitHoldsExactly | apps/portal/middleware.ts:20-21 | over one address's anonymous requests, "at most 120" holds for the 60 seconds from a moment, whatever it posts in them, if and only if the map then holds no live window for it or a full one |
| LimiterRuns.PostSpends | apps/portal/middleware.ts:29-53 | one request lets through under a key only what its window had left, or what a fresh limit gives when the full clear fires |
| LimiterRuns.RunAdmitsWithClears | apps/portal/middleware.ts:29-53 | over any run at all, in 60 seconds a key gets through at most its window's room, its limit, and its limit again for each full clear in them |
| LimiterRuns.ClearingsCounted | apps/portal/middleware.ts:40-41 | where the clears of a run are counted by place, each once |
| LimiterRuns.FiresInNumbers | apps/portal/middleware.ts:40-41 | a clear is a POST that finds more than 20,000 keys with a window at most 60,000 ms old |
| LimiterRuns.OneKeyDecides | apps/portal/middleware.ts:49-52 | where only one of a request's keys can be at its limit, the verdict is that key's own history's |
| LimiterRuns.FollowingAdmitted | apps/portal/middleware.ts:29-53 | after any run, traffic that leaves room under its other keys gets through under the key exactly as the key's history admits |
| LimiterRuns.SentFollow | apps/portal/middleware.ts:40-53 | requests with room under their other keys, and too few keys for a crowd, can follow any run without a full clear firing |
| LimiterRuns.RoomAndLimitReached | apps/portal/middleware.ts:29-53 | after any run there is traffic of which the key gets through all its window has room for, and its limit |
| LimiterRuns.LimitHoldsExactlyInRuns | apps/portal/middleware.ts:18-53 | after any run without a full clear, for a person's, a shared address's or an anonymous key: the limit holds for the next 60 seconds, whatever comes in them, if and only if the map then holds no live window for it or a full one |
| LimiterRuns.PersonOverLimit | apps/portal/middleware.ts:20-21 | one person at one address sends 240 posts, of which 239 get through in 60 seconds |
| LimiterRuns.OfficeOverLimit | apps/portal/middleware.ts:20-21 | 3,000 people behind one address send one post each, of which 2,999 get through in 60 seconds |
| RateLimiter.CountSinceCounts | apps/portal/middleware.ts:42-48 | the posts since a time are counted by place, each once |
| RateLimiter.WindowsCountPosts | apps/portal/middleware.ts:42-48 | swept, cleared or not, a window never counts more posts than there were since it began |
| RateLimiter.RefusalIsEarned | apps/portal/middleware.ts:29-53 | swept, cleared or not, a post is refused only if one of its keys has its limit's worth of posts in the last 60 seconds |
| RateLimiter.ClearNeedsCrowd | apps/portal/middleware.ts:40-41 | the full clear fires only when more than 20,000 different keys were posted under in the last 60 seconds |
| Claims.StepBalanced | apps/portal/lib/broadcast-delivery.ts:58-60 | every step of any run, edit or reset keeps claims + initial stamp = resets + present stamp, and sends within claims |
| Claims.StampsConserved | apps/portal/lib/broadcast-delivery.ts:52-60 | so does every interleaving of any number of runs |
| Claims.SentAtMostOnce | apps/portal/lib/appointment-reminders.ts:25-27 | a record is sent at most once more than its stamp was emptied, hence at most once if nothing empties it |
| Claims.ResentAfterResets | apps/portal/lib/actions/notifications.ts:366 | for every number of times the stamp is emptied there are runs that send the record once more than that: the bound is reached |
| Claims.SnapshotsJustified | apps/portal/lib/broadcast-delivery.ts:53-56 | whatever a run still holds in its snapshot was due and unstamped when that run read it |
| Claims.SendsAreClaimed | apps/portal/lib/broadcast-delivery.ts:59-60 | a run sends only what its own compare-and-set changed, and claims only what its snapshot held, due and unstamped |
| Claims.ClaimedFromSnapshot | apps/portal/lib/broadcast-delivery.ts:58-60 | a run claims only records of its snapshot, none twice |
| Claims.TotalOverClaimed | apps/portal/lib/broadcast-delivery.ts:57-88 | the returned total is the sum over exactly the records this run claimed |
| Claims.ClaimedWhenEmpty | apps/portal/lib/broadcast-delivery.ts:59-60 | whatever others do meanwhile, a record of the snapshot is claimed if and only if its stamp is empty when its turn comes, and is stamped afterwards |
| Claims.RunIsDeliver | apps/portal/lib/broadcast-delivery.ts:58-60 | in every interleaving, a run claims exactly what its loop claims when started from the database it read its snapshot in, with the others' steps in between replayed on whatever it left; and the database is at every moment theirs and its work together |
| Delivery.FilterPartition | apps/portal/lib/broadcast-delivery.ts:34-41 | those who got it and those who did not are together everyone attempted |
| Delivery.FilterExactly | apps/portal/lib/broadcast-delivery.ts:68 | a filtered list holds each person as often as the list did if they pass, else never |
| Delivery.EmailCustomers | apps/portal/lib/broadcast-delivery.ts:13-44 | in batches of five, of any list length: each active customer of the organisation who wants email and has an address, if chosen where customers are chosen, is attempted as often as the table lists them, nobody else; failures logged in order, counts adding up |
| Delivery.EmailStaff | apps/portal/lib/broadcast-delivery.ts:67-84 | each active user of the organisation with an address whom the audience reaches, kind by kind, is attempted as often as listed, nobody else, in order; a failure stops nobody else |
| Delivery.Table.UpdateManyUnstamped | apps/portal/lib/broadcast-delivery.ts:59 | the compare-and-set stamps an unstamped record and says so; otherwise nothing changes |
| Delivery.DeliverDueBroadcastEmails | apps/portal/lib/broadcast-delivery.ts:52-89 | the loop, against anything others do between its steps: it claims only live, unsent broadcasts marked for email; final records, claims and total as specified; left alone it claims every such broadcast |
| Delivery.SentForExactly | apps/portal/lib/broadcast-delivery.ts:61-87 | what a broadcast adds to the total, by audience: for the two customer audiences the customers it reaches, if they can be read, else the staff; by their fields |
| Delivery.FoundDue | apps/portal/lib/broadcast-delivery.ts:53-56 | the query finds every record that is unstamped and due, once, and nothing else |
| Delivery.AloneClaimsAll | apps/portal/lib/broadcast-delivery.ts:57-60 | left alone a run claims all it found, once each |
| Delivery.SendDueAppointmentReminders | apps/portal/lib/appointment-reminders.ts:13-41 | the same for scheduled appointments that start after now and within 65 minutes; the count returned is the number claimed |
| EmployeeIds.OrganisationCodeIsCode | apps/portal/lib/employee-id.ts:22-27 | one to three capitals or digits, one exactly for a one-letter one-word name |
| StaffCodes.OrganisationLetters | apps/portal/lib/employee-id.ts:22-27 | no word gives EJO, one word its first three letters, more the initials of the first three, in capitals |
| StaffCodes.NameWordsOfBlank | apps/portal/lib/employee-id.ts:18-23 | a name's words are its runs of letters and digits, told by code point: everything else keeps them apart |
| StaffCodes.KewalramNigeria | apps/portal/lib/employee-id.ts:21 | "Kewalram Nigeria" gives KN |
| EmployeeIds.DigitInOrganisationCode | apps/portal/lib/employee-id.ts:22-27 | digits count as letters: "3M Ltd" gives "3L" |
| EmployeeIds.BranchCodeIsCode | apps/portal/lib/employee-id.ts:30-39 | two to four capitals or digits, never a hyphen, whatever the name and own code |
| StaffCodes.OwnCodeDecides | apps/portal/lib/employee-id.ts:31-32 | an own code of two letters or digits or more gives its first four, in capitals, whatever the name |
| StaffCodes.EachCharacter | apps/portal/lib/employee-id.ts:31 | of an own code exactly the letters and digits count, in place |
| StaffCodes.BranchLetters | apps/portal/lib/employee-id.ts:33-39 | otherwise the words that are no fillers decide, all if there are only fillers: BR, three letters filled up with X, or initials |
| StaffCodes.EachWord | apps/portal/lib/employee-id.ts:34 | each word counts in its place unless it is one of the thirteen fillers in any case |
| StaffCodes.LowerIsSmall | apps/portal/lib/employee-id.ts:34 | a word is compared with them in small letters, character by character |
| StaffCodes.FillerChangesNothing | apps/portal/lib/employee-id.ts:34-35 | a filler more in a name changes nothing while a telling word remains |
| StaffCodes.VictoriaIsland | apps/portal/lib/employee-id.ts:6 | "Victoria Island" gives VI |
| StaffCodes.IsoloBranch | apps/portal/lib/employee-id.ts:6 | "Isolo Branch" gives ISO |
| EmployeeIds.CandidatesDiffer | apps/portal/lib/employee-id.ts:69 | the codes tried for one base are pairwise different |
| EmployeeIds.Pigeonhole | apps/portal/lib/employee-id.ts:69 | n tried codes all taken means at least n codes in use |
| EmployeeIds.FreshIsEarliest | apps/portal/lib/employee-id.ts:67-69 | the search ends within one more step than there are codes in use, at the earliest free one |
| EmployeeIds.FreshCode | apps/portal/lib/employee-id.ts:67-69 | the unbounded suffix loop ends and returns that code |
| EmployeeIds.UniqueBranchPrefixes | apps/portal/lib/employee-id.ts:62-74 | the nested loops compute each branch's prefix, later branches of the same id winning |
| StaffCodes.SameBase | apps/portal/lib/employee-id.ts:62-74 | branches that would all have one code get it, and then with 2, 3 and so on, in order of creation |
| EmployeeIds.CodesDistinct | apps/portal/lib/employee-id.ts:62-74 | no two branches share a code |
| EmployeeIds.CodesStable | apps/portal/lib/employee-id.ts:56-61 | appending newer branches changes no earlier branch's code |
| EmployeeIds.PrefixOf | apps/portal/lib/employee-id.ts:71 | the map gives an id the organisation's code, a hyphen and the code of the last branch with that id |
| EmployeeIds.PrefixKeys | apps/portal/lib/employee-id.ts:62-74 | and the map holds exactly the ids of the branches |
| EmployeeIds.PrefixStable | apps/portal/lib/employee-id.ts:56-61 | so its prefix stays the same when branches are added |
| EmployeeIds.CodesAreCodes | apps/portal/lib/employee-id.ts:62-74 | suffixed codes too are capitals and digits |
| EmployeeIds.ReadsBack | apps/portal/lib/employee-id.ts:45-54 | under its own prefix an ID reads back as its number exactly up to 999,999,999 |
| EmployeeIds.OtherPrefixRefuses | apps/portal/lib/employee-id.ts:50-54 | under any other branch's prefix it reads as null, even when one code extends the other |
| EmployeeIds.FormatInjective | apps/portal/lib/employee-id.ts:45-47 | two IDs of one organisation are equal if and only if code and number are |
| StaffCodes.FourDigits | apps/portal/lib/employee-id.ts:45-47 | an ID is the prefix, a hyphen and the number, zeros before it up to four digits |
| StaffCodes.ReadsAnyDigits | apps/portal/lib/employee-id.ts:50-54 | after prefix and hyphen any one to nine digits are read as their number; everything else as null |
| EmployeeIds.IdsIdentify | apps/portal/lib/employee-id.ts:45-74 | over an organisation's branches an ID tells branch and number, and reads back only under its own branch's prefix |
| EmployeeIds.LargestBound | apps/portal/lib/staff-onboarding.ts:35-38 | no recognised number exceeds 999,999,999 |
| EmployeeIds.NextIsNew | apps/portal/lib/staff-onboarding.ts:26-38 | the next ID is already taken if and only if nine digits are used up and the first ID beyond them was issued; below that its number is one above the largest |
| EmployeeIds.NextRepeatsAfterNineDigits | apps/portal/lib/staff-onboarding.ts:35-38 | as long as no account is deleted: issuing the next ID leaves the same ID next if and only if the largest number is 999,999,999 |
| StaffNumbers.OnlyItsPrefix | apps/portal/lib/employee-id.ts:50-54 | an ID is recognised under no prefix but its own, whatever the prefixes look like |
| StaffNumbers.StepKeeps | apps/portal/lib/staff-onboarding.ts:26-38 | reading a number, using it later and deleting an account each keep: present IDs were issued, no number up to the largest ever issued was skipped, no offer goes more than one beyond it |
| StaffNumbers.RunKeeps | apps/portal/lib/staff-onboarding.ts:26-38 | so does every run, with any number of administrators and prefixes interleaved |
| StaffNumbers.NextReused | apps/portal/lib/staff-onboarding.ts:26-38 | over every run, the ID offered next was issued before if and only if the largest number present is below the largest ever issued, or nine digits are used up and the first ID beyond them was issued |
| StaffNumbers.OfferReused | apps/portal/lib/actions/users-admin.ts:220-232 | an offer read a while ago, with others at work since, was issued before if and only if it is not beyond the largest ever issued |
| StaffNumbers.PresentDistinct | apps/portal/lib/actions/users-admin.ts:220-232 | at any time no two accounts share an ID, and without a deletion every ID ever issued is present, so none is issued twice |
| StaffNumbers.DeletedNumberReturns | apps/portal/lib/staff-delete.ts:74-87 | two hires, the second account deleted, a third hire: the third person gets the second one's ID |
| AccessNotices.DeliverRoleAccessNotices | apps/portal/lib/access-notices.ts:15-45 | the run's window, its first 2,000 changes, and one notice per role with the permissions added and removed |
| AccessNotices.StartInNumbers | apps/portal/lib/access-notices.ts:18-21 | the window starts at the last run's `upTo`, else its time, else 900,000 ms ago, and never over 604,800,000 ms ago |
| AccessNotices.WithinExactly | apps/portal/lib/access-notices.ts:22-24 | the window has exactly the changes later than its start and no later than its end, each as often as logged |
| AccessNotices.ReadsOldest | apps/portal/lib/access-notices.ts:24-27 | of those the run reads a prefix, the oldest: all if there are at most 2,000, else 2,000 |
| AccessNotices.NoticeName | apps/portal/lib/access-notices.ts:30-36 | a notice carries the role name of its first change in the window that counts, or "your role" |
| AccessNotices.FinalIsLastChange | apps/portal/lib/access-notices.ts:29-37 | the fold keeps, per role and permission, what its last change said, and nothing for permissions that did not change |
| AccessNotices.NoticeListsLastChanges | apps/portal/lib/access-notices.ts:38-41 | a permission is listed as added if and only if its last change was a grant, as removed if and only if it was a revocation, never both |
| AccessNotices.NoticedRoles | apps/portal/lib/access-notices.ts:29-38 | a role is noticed if and only if one of its permissions changed, and never with an empty notice |
| AccessNotices.WindowsInOrder | apps/portal/lib/access-notices.ts:16-23 | no run starts reading before any earlier run stopped |
| AccessNotices.WindowsDisjoint | apps/portal/lib/access-notices.ts:10-11 | no moment is read twice |
| AccessNotices.ReadUnlessTooLate | apps/portal/lib/access-notices.ts:19-23 | between the first window's start and the last run a moment is read if and only if no run found it over a week old |
| AccessNotices.WithinJoins | apps/portal/lib/access-notices.ts:22-24 | adjoining windows read what the joined window reads, in order |
| AccessNotices.EachChangeReadOnce | apps/portal/lib/access-notices.ts:15-45 | successive runs, late or not, read every change exactly once and in order if and only if none finds more than 2,000 and none finds a change over a week old; otherwise some are never read |
| AccessNotices.FailedRunReadAgain | apps/portal/lib/access-notices.ts:10-23 | what a failed run had read, the next run reads again if and only if it is then less than a week old (without any earlier record, fifteen minutes) |
| LiveUpdates.Provider.BeginCheck | apps/portal/components/NotificationProvider.tsx:208-209 | a check starts only when none is under way and the page is visible, and then holds the guard |
| LiveUpdates.Provider.AnswerCheck | apps/portal/components/NotificationProvider.tsx:210-228 | every answer's effect on the refs, and whether it loads |
| LiveUpdates.Provider.EndCheckLoad | apps/portal/components/NotificationProvider.tsx:226-228 | when the check's load ends only the guard is freed |
| LiveUpdates.Provider.OnPing | apps/portal/components/NotificationProvider.tsx:233-240 | pings coalesce on one timer, due 2 seconds after the last load if that was less than 1.7 seconds ago, else in 0.3 seconds |
| LiveUpdates.Provider.OnPingTimer | apps/portal/components/NotificationProvider.tsx:236-239 | the timer is freed, and loads only on a visible page |
| LiveUpdates.StepKeepsInvariant | apps/portal/components/NotificationProvider.tsx:200-240 | every event keeps: the guard is held exactly during a check, and a remembered pulse other than the first has been covered by a load |
| LiveUpdates.StepInNumbers | apps/portal/components/NotificationProvider.tsx:200-240 | every ref after every event, in numbers: a load starts on request, when a ping's timer fires on a visible page, or when a check finds another pulse than the remembered one 30,000 ms or more after the last load |
| LiveUpdates.RunKeepsInvariant | apps/portal/components/NotificationProvider.tsx:200-240 | so does every interleaving of changes, checks, other loads, pings and time |
| LiveUpdates.CheckLoadsKeepGap | apps/portal/components/NotificationProvider.tsx:218-224 | over every run, a load a check starts begins 30 seconds or more after any load before it, whatever started that |
| LiveUpdates.OverwritesLoad | apps/portal/components/NotificationProvider.tsx:218-224 | over every run, a remembered pulse is overwritten only in a step that starts a load, 30 seconds or more after any load before |
| LiveUpdates.UncoveredStaysPending | apps/portal/components/NotificationProvider.tsx:18-20 | over every run, a change no load has covered equals the remembered pulse if and only if it is the one the first check saw |
| LiveUpdates.FirstAnswerHides | apps/portal/components/NotificationProvider.tsx:218 | the first answer hides a change if and only if the server has moved past the last load and no further since it answered |
| LiveUpdates.NothingHiddenLater | apps/portal/components/NotificationProvider.tsx:218-224 | and if the first answer hides nothing, no change is hidden in any run from there |
| LiveUpdates.NextCheckLoads | apps/portal/components/NotificationProvider.tsx:218-224 | 30 seconds after the last load, the next answered check loads an uncovered change if and only if it is not the one the first check saw |
| LiveUpdates.FirstCheckCanHideAChange | apps/portal/components/NotificationProvider.tsx:218 | a run in which the first check remembers a change no load has covered |
| SearchBoxes.SearchBox.Ask | apps/portal/components/SearchableSelect.tsx:69-99 | every query, cleared or not, supersedes the one before; the box empties or waits |
| SearchBoxes.SearchBox.Answer | apps/portal/components/SearchableSelect.tsx:83-104 | only the newest request's answer is stored |
| SearchBoxes.SearchBox.Fail | apps/portal/components/GlobalSearch.tsx:76 | only the newest request's failure, and no aborted one, empties the box |
| SearchBoxes.RunKeepsInvariant | apps/portal/components/SearchableSelect.tsx:69-111 | over every order of queries, answers and failures: the box is finished exactly when the newest request is answered |
| SearchBoxes.FinishedShowsNewest | apps/portal/components/GlobalSearch.tsx:64-79 | a finished box shows the newest request's answer |
| SearchBoxes.WaitsForNewest | apps/portal/components/SearchableSelect.tsx:69-111 | it waits if and only if the newest request is unsettled or was aborted, says it failed if and only if that request failed, and is idle if and only if the newest query was cleared |
| SearchBoxes.SupersededChangeNothing | apps/portal/components/SearchableSelect.tsx:67-111 | leaving out every superseded answer and failure gives the same box |
| TimeSplit.DefaultSplitNeedsThree | ml/ejo_ml/data.py:100-108 | with the default fractions the split succeeds if and only if there are three rows or more |
| TimeSplit.PartsMakeWhole | ml/ejo_ml/data.py:102-108 | whenever it succeeds the parts are non-empty and put together give the rows |
| TimeSplit.PartSizes | ml/ejo_ml/data.py:102-104 | test and validation parts have the rounded 20% and 15% of the rows, at least one each |
| TimeSplit.TrainsOnThePast | ml/ejo_ml/data.py:100-108 | on a frame in date order no training row is later than a validation row, and no validation row later than a test row |

## Left out

- Rounding: floats are exact reals with NaN and infinities; Python's `sum`, the portal's addition and the depth sum's are parameters, so both sides of an export round alike.
- The final isolation score, `average_path_length`, `sparse_weights`, `check_lgbm` and `check_iforest`: logarithms, exponentials and libraries that cannot be seen.
- scikit-learn's own trees: `IForestTrees` is given, for each estimator, the inductive tree its arrays unfold to (a specification-only argument).
- LightGbm.GateIsSafe: the gate is modelled on a well-typed upload; the JSON shape checks and the `samples` list are not.
- LightGbm.LeafOf: is called only where its loop ends; on other tables the source's loop does not return, so there is no result to state (`EndsOrNever` says which tables those are).
- Kobo: amounts are whole kobo, on which rounding to two decimals is the identity; amounts with fractions of a kobo are not modelled.
- CustomerMoney.MonthlySpend: asks for a `now` in the years 100 to 9999 and for no month before the year 0; `Date.UTC` reads smaller years as 19xx, and ISO strings write others with a sign. Entries may lie in any year.
- Bucket labels and the other fields of `customerMoney` (averages, turnaround, last visit, totals): sums and maxima without a property of their own.
- Strings are sequences of characters, not UTF-16 units; the 30-character limit and the 32-character token slice count characters.
- The session cookie's verification, and the page rules around `tooManyPosts` in the middleware.
- A delivery run that dies half-way is a run that stops taking steps, and a send that fails after its claim is a claim without a send; records that are deleted are not modelled.
- Email texts, audit entries, renderer errors, who exactly receives a reminder, and the morning digest.
- The database's order of a snapshot is a parameter, and so are the customers and users it returns.
- Who may delete an account, and when: `StaffNumbers` lets any ID be deleted at any time. A refused ID is read anew as the next step of its administrator.
- AccessNotices.EachChangeReadOnce: speaks of runs that succeed; one that fails stores no `upTo` and is covered by `FailedRunReadAgain` alone.
- RateLimiter.RunAdmitsUnderTwiceLimit: assumes no full clear; `RunAdmitsWithClears` is the bound with them.
- Log entries written late with an earlier time: `EachChangeReadOnce` takes the log as complete and in order of time.
- The order in which permissions are listed in a notice; they are sets here.
- Whether a started summary load succeeds, and the mail badge, sounds, storage and idle timers of the notification provider.
- Rendering, highlighting and debouncing in the search boxes; the pickers whose empty selection does not bump the counter.
- `jobs_frame` and `decisions_frame` themselves: the split takes their rows as ordered by date, then row id.
- TimeSplit.DefaultSplitNeedsThree: rounding may give either neighbour at a tie, and is otherwise that of the exact product.
