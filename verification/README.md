# Toko360 worker and register: models and proofs

Toko360 is a shop system: a background worker moves events, jobs, points, stock and reports along, and a register
(point of sale) goes on selling while the server is out of reach. This project models the parts of both where a
wrong step loses a sale, pays twice or breaks a balance, and proves what they guarantee. Where a guarantee holds only
under a condition the code does not enforce, the condition is stated and a run that breaks it is proved too.

`dafny verify dfyconfig.toml` checks everything.

| file | what it models |
|---|---|
| `AutomationJobs.dfy` | claim, execute and failure write of automation jobs, by any number of workers that may crash or stall |
| `Outbox.dfy` | event dispatch under an expiring lease, rule materialisation, webhook delivery rows |
| `LoyaltyExpiry.dfy` | first-in-first-out replay of a point ledger and the expiry run |
| `OrderExpiry.dfy` | release of an expired order's stock at warehouse and location level |
| `ReportSchedule.dfy` | the calendar of report runs and the jobs made from it |
| `Csv.dfy`, `Crc32.dfy`, `Zip.dfy`, `Pdf.dfy`, `ExcelColumn.dfy` | the serialisers of the report jobs, each against an independent reader or reference |
| `PdfReader.dfy`, `PdfReading.dfy` | a reader of PDF files, and what it gets from the files written |
| `Ledger.dfy`, `PostingRules.dfy` | folds behind the balance sheet and the profit and loss; the posting engine and seeded rules |
| `OfflineQuote.dfy` | discount and tax of an offline sale, to the cent |
| `Cart.dfy` | the cart capped by stock, the offline reservation, recalling a held cart |
| `PosQueue.dfy`, `PosPayment.dfy` | the offline queue and its synchronisation; the payment protocol with idempotency keys |
| `CategoryTree.dfy` | the category list of the back office and its labels |
| `Decimal.dfy`, `Common.dfy` | decimal text; shared small things |

How the source is read:

- A database transaction, or one conditional `updateMany`, is one atomic step; rows are maps or sequences; time is
  whole milliseconds. Between two steps of one worker any other worker may act, and a worker may stop for ever.
- Money is whole cents, so that `round2` of sums is the identity; `Math.round` is floor(x + 1/2), also for negative
  numbers. Discounts typed in and tax rates are real numbers.
- Text is `seq<char>` of Unicode scalar values, bytes are bit vectors or naturals.
- Loops over mutable variables are methods proved against a function; what the source promises is proved about the
  function. Where the database, a server or a sort outside the code decides an order, the order is a parameter.

Where the repository's own statements and the code differ, the code is followed:

- `instructions/SYSTEM-INSTRUCTIONS.md:24` asks that no retry duplicates a transaction. `AutomationJobs.LateFailureRepeats`,
  `Outbox.ExpiredLeaseDuplicates`, `LoyaltyExpiry.OlderUnexpiringPointsBurn` and `PosPayment.RevertDuplicates` are runs of
  the code in which one does; the theorems beside them say exactly when.
- The comment at `apps/pos/app/page.tsx:617` says a queued sale never duplicates the one sent before it, which
  `PosPayment.UnchangedPaymentSoldOnce` proves. A sale queued while a synchronisation is under way is lost instead
  (`PosPayment.OverlapLosesSale`), and a cart put aside with its payment unanswered can lend its sale to the next one
  (`PosPayment.HoldSwallowsNextSale`).
- The register says local stock is reserved for queued sales. `Cart.ReservedIsSoldIff` says exactly when it is,
  and `Cart.SafeToLoseIff` when that is enough.
- `renderPdf` has a branch for an empty report; there are always three heading lines, so it is never taken.

## Model

| member | source | states |
|---|---|---|
| `AutomationJobs.StepCountsEffects` | apps/worker/src/index.ts:644-782 | each step commits a job's effects exactly when it makes the job succeed, and loses a success only by the failure write |
| `AutomationJobs.EffectsAreSuccesses` | apps/worker/src/index.ts:644-782 | over every run, timely or not, a job's effects number its successes, so each repetition is one overwritten success |
| `AutomationJobs.StepKeepsInv` | apps/worker/src/index.ts:656-667 | a timely step leaves at most one live holder per job and never leaves SUCCEEDED |
| `AutomationJobs.AtMostOnce` | apps/worker/src/index.ts:644-782 | from the start on, over all interleavings and crashes, if a thrown transaction rolled back and no worker outlives its ten-minute lock, effects commit at most once and SUCCEEDED is absorbing |
| `AutomationJobs.LateFailureRepeats` | apps/worker/src/index.ts:771-779 | without the lock assumption a job runs twice: the failure write does not look at the status |
| `AutomationJobs.LostAcknowledgementRepeats` | apps/worker/src/index.ts:771-779 | without the rollback assumption a job runs twice with no time passing |
| `AutomationJobs.TakenOver` | apps/worker/src/index.ts:645-665 | from any state with an expired lock a second worker takes the job over and succeeds while the first still holds its error |
| `AutomationJobs.Reopened` | apps/worker/src/index.ts:776 | from any state with a succeeded job and a late failure write, the job executes once more |
| `AutomationJobs.LockIsRespected` | apps/worker/src/index.ts:645-665 | a job under way is left alone for ten minutes and no longer |
| `AutomationJobs.FailureRetries` | apps/worker/src/index.ts:775-778 | a failed job is eligible again if and only if it has attempts left and a wait is over that doubles from five seconds up to an hour |
| `Outbox.JobKeyInjective` | apps/worker/src/index.ts:156 | the key "rule:event:index" tells (rule, event, action index) apart for ids without colons |
| `Outbox.StepKeepsComplete` | apps/worker/src/index.ts:240-286 | every step keeps: a dispatched event has a job for each matching action and a delivery for each matching endpoint it saw |
| `Outbox.NothingSeenIsLost` | apps/worker/src/index.ts:143-178 | the same over every run with crashes, stalls and retries; jobs and deliveries never disappear |
| `Outbox.LeaseIsRespected` | apps/worker/src/index.ts:240-253 | a claimed event is left alone until ten minutes after the poll, and no longer |
| `Outbox.TickedOff` | apps/worker/src/index.ts:240-275 | what a worker does for an action, an endpoint or an event of its list it does not do again |
| `Outbox.FailureRetries` | apps/worker/src/index.ts:276-283 | after a failed dispatch an event is available again half a minute later, unless that was its tenth attempt |
| `Outbox.OneDeliveryPerPair` | apps/worker/src/index.ts:250-277 | if no worker outlives its lease and no dispatch update commits and then throws, no (endpoint, event) pair is ever delivered twice and a dispatched event stays so |
| `Outbox.DeliveriesAreCreations` | apps/worker/src/index.ts:263-274 | over every run a pair has as many deliveries as were created for it, and at most one if and only if none was created where one stood |
| `Outbox.DispatchLostIff` | apps/worker/src/index.ts:276-284 | a step takes a dispatched event back if and only if it is a failure write for it |
| `Outbox.LostAcknowledgementReopens` | apps/worker/src/index.ts:276-284 | a dispatch that commits and then throws is taken back by its own worker |
| `Outbox.TakeoverDuplicates` | apps/worker/src/index.ts:250-274 | from any state in which one worker has stalled before creating a delivery and the event is available again, a second can take it over, and both create |
| `Outbox.DispatchedExactly` | apps/worker/src/index.ts:240-286 | a dispatched event has exactly one job per matching action and, in a timely run, exactly one delivery per matching endpoint |
| `Outbox.ExpiredLeaseDuplicates` | apps/worker/src/index.ts:250-274 | from every initial state, for every event, endpoint and two workers, one worker's stall for the length of its lease leads to two deliveries |
| `LoyaltyExpiry.DebitOldest` | apps/worker/src/index.ts:810-817 | the in-place loop over buckets takes a debit from the oldest first and drops what they cannot cover |
| `LoyaltyExpiry.LoyaltyAccount.ExpirePoints` | apps/worker/src/index.ts:784-839 | keeps balance = ledger sum >= 0, and writes one EXPIRE row of exactly the expiring points, or nothing |
| `LoyaltyExpiry.ExpiresOnTime` | apps/worker/src/index.ts:819-821 | points expire at their instant and not before, and never without one |
| `LoyaltyExpiry.ReplayConserves` | apps/worker/src/index.ts:804-818 | buckets hold the ledger's sum exactly for ledgers never overdrawn, and more otherwise |
| `LoyaltyExpiry.SecondRunIdle` | apps/worker/src/index.ts:819-823 | a second run at the same instant takes nothing if and only if the balance is used up or the due buckets came first |
| `LoyaltyExpiry.RepeatedRunsBurn` | apps/worker/src/index.ts:784-839 | repeated runs burn exactly the points up to the last due bucket, due or not, as far as the balance goes |
| `LoyaltyExpiry.StretchIsDue` | apps/worker/src/index.ts:819-823 | that stretch is only due points if and only if due buckets come first |
| `LoyaltyExpiry.OrderedExpiryIsExact` | apps/worker/src/index.ts:784-839 | when expiry dates never decrease in earning order, one run is enough and removes points of due buckets only |
| `LoyaltyExpiry.OlderUnexpiringPointsBurn` | apps/worker/src/index.ts:810-817 | with an older bucket that never expires, a second run takes points that are not due |
| `OrderExpiry.ExplicitSum` | apps/worker/src/index.ts:861-871 | releasing the explicit reservations lowers the location sum of each warehouse and product by exactly what the order holds there explicitly |
| `OrderExpiry.ReleasesItsOwn` | apps/worker/src/index.ts:861-872 | exactly the order's own active reservations are released |
| `OrderExpiry.OrderedTogether` | apps/worker/src/index.ts:872-876 | the quantities of several items of one product add up |
| `OrderExpiry.TakeUntracked` | apps/worker/src/index.ts:880-895 | the loop over the location rows of one product, with its conditional updates, computes the greedy release |
| `OrderExpiry.LegacyKeeps` | apps/worker/src/index.ts:880-895 | the greedy release takes all it needs or all there is, only from matching rows, and never a tracked piece |
| `OrderExpiry.LegacySucceedsIff` | apps/worker/src/index.ts:877-905 | it goes through exactly when the warehouse row can give the quantity and there are no location rows or the untracked total suffices; for an order of rows that lists them all, that is the total of all rows |
| `OrderExpiry.TotalOfAll` | apps/worker/src/index.ts:880-886 | the untracked total is the same for every order of the rows |
| `OrderExpiry.OrderReleases` | apps/worker/src/index.ts:861-906 | what a committed release changes: the ordered quantities at the warehouse; at the locations of every warehouse, what the order holds there explicitly and, at its own, the legacy quantities |
| `OrderExpiry.ReleaseConsistentIff` | apps/worker/src/index.ts:861-906 | a committed release leaves consistent tables consistent if and only if every piece the order had reserved explicitly is of one of its items and lies in its own warehouse |
| `OrderExpiry.ElsewhereBreaks` | apps/worker/src/index.ts:861-906 | naming only its items is not enough: an order whose pieces lie in another warehouse is released and leaves both warehouses inconsistent |
| `OrderExpiry.ExpireKeepsConsistent` | apps/worker/src/index.ts:850-906 | quantity = reserved + available, location sums = warehouse reserved, reserved >= tracked: kept by the transaction exactly when it does not commit or the reservations are the order's own |
| `OrderExpiry.ReleasedAtMostOnce` | apps/worker/src/index.ts:855-860 | over every run, whatever the reservations name, an order gives back its stock at most once; other transactions may do anything but revive or delete a cancelled order |
| `OrderExpiry.RunKeepsConsistent` | apps/worker/src/index.ts:850-906 | over every run that commits only orders with their own reservations, the tables stay consistent |
| `OrderExpiry.OrderDatabase.ExpireOrder` | apps/worker/src/index.ts:850-918 | the transaction writes the whole release or nothing |
| `OrderExpiry.ExpiresIff` | apps/worker/src/index.ts:850-860 | an order is cancelled exactly when it awaits payment, its time is up and its stock can be released; other orders stay as they are |
| `Calendar.MonthLengths` | apps/worker/src/index.ts:950-984 | the day-number arithmetic behind Date.UTC gives each month its exact length, with a 29 February in years divisible by 4 and not by 100, or by 400 |
| `Calendar.DaysAreCounted` | apps/worker/src/index.ts:963-984 | day 0 is 1 January 1970, a Thursday, and weekdays follow each other |
| `Calendar.DatesGoOn` | apps/worker/src/index.ts:950-984 | dates and months out of range carry over |
| `Calendar.PartsRebuildDay` | apps/worker/src/index.ts:942-949 | year, month and date of a day rebuild that day |
| `ReportSchedule.LocalToUtc` | apps/worker/src/index.ts:950-961 | the correcting loop ends on the instant whose local parts are those asked for |
| `ReportSchedule.NextReportScheduleRun` | apps/worker/src/index.ts:963-987 | an error exactly for invalid schedules; otherwise the least daily, weekly or monthly occurrence strictly after the argument, across year ends, at the asked-for local time and, if weekly, on the asked-for weekday counted from a Sunday |
| `ReportSchedule.OccursPlainly` | apps/worker/src/index.ts:963-987 | what an occurrence is, in plain numbers: time of day, weekday, or day of some month, in local time |
| `ReportSchedule.JobsAreConsecutive` | apps/worker/src/index.ts:989-1022 | over every run of any number of workers the jobs are consecutive occurrences all along if and only if each failure puts the row where it stands and each update worked out its date between the last run and the next |
| `ReportSchedule.NoGap` | apps/worker/src/index.ts:989-1022 | in consecutive occurrences none in between is missing |
| `ReportSchedule.OneJobPerOccurrence` | apps/worker/src/index.ts:989-1022 | over every such run, from the creation up to the next run every occurrence has exactly one job, in order |
| `ReportSchedule.FailKeepsStepIff` | apps/worker/src/index.ts:1018-1020 | a failure write keeps the sequence if and only if an hour from now is where the row stood |
| `ReportSchedule.UpdateKeepsStepIff` | apps/api/src/reports/reports.service.ts:1079-1087 | an update keeps the sequence if and only if it worked out its date after the last run was made and before the next was due; later it skips the due run, earlier it shows a run already made |
| `ReportSchedule.PassedOverStays` | apps/worker/src/index.ts:989-1022 | a run the row has passed over is never made, failures or not, unless an update still works with an older date |
| `ReportSchedule.UpdateSkips` | apps/api/src/reports/reports.service.ts:1079-1087 | switching a schedule off and on, or any other update, loses for ever every run that was due when the date was worked out |
| `ReportSchedule.FailureSkips` | apps/worker/src/index.ts:1018-1020 | a failure while a run is due loses it: no continuation ever makes its job |
| `ReportSchedule.LoserOverwritesWinner` | apps/worker/src/index.ts:1002-1020 | a worker that fails after another one committed the same run moves the advanced row; the sequence survives only if an hour from now is the next occurrence |
| `Csv.ParseCsvRows` | apps/worker/src/index.ts:1427-1447 | the character loop with its row, cell and quoted state computes the parser function |
| `Csv.ParseOfCsv` | apps/worker/src/index.ts:1046-1053 | what the parser makes of every written table, exactly |
| `Csv.RoundTrip` | apps/worker/src/index.ts:1427-1447 | a written table comes back unchanged if and only if every row has a cell, the last row is not one empty cell, and it does not end in a carriage return |
| `Csv.WrittenPlainlyIff` | apps/worker/src/index.ts:1046-1049 | a cell is written as it is if and only if it holds no quote, comma, line feed or semicolon |
| `Crc32.SerialIsParallel` | apps/worker/src/index.ts:1461-1473 | feeding bits one by one equals xoring them in together and shifting |
| `Crc32.StepsLinear` | apps/worker/src/index.ts:1465-1469 | shifting is linear over xor |
| `Crc32.TableStepIsByteStep` | apps/worker/src/index.ts:1471 | one table lookup equals eight steps of the bitwise CRC-32 |
| `Crc32.Checksum.Compute` | apps/worker/src/index.ts:1460-1473 | fills the table on first use and returns the bit-by-bit CRC-32 of every byte sequence |
| `Crc32.BurstDetected` | apps/worker/src/index.ts:1460-1473 | any change confined to four consecutive bytes changes the checksum |
| `Crc32.PolynomialTerms` | apps/worker/src/index.ts:1466 | the constant is the polynomial of section 8 of RFC 1952, term by term |
| `Crc32.ZeroByte` | apps/worker/src/index.ts:1460-1473 | the known checksum of one zero byte |
| `Zip.ZipStored` | apps/worker/src/index.ts:1475-1500 | writes an archive exactly for lists within the 16- and 32-bit fields, and throws otherwise; a strict reader gets the files back |
| `Zip.ReadBack` | apps/worker/src/index.ts:1475-1500 | a reader following end record, central directory and local headers recovers exactly the names and data, in order; it refuses an archive unless checksum, both sizes, name, versions, counts and directory size agree in all their copies and everything else is zero |
| `Pdf.PageLines` | apps/worker/src/index.ts:1523-1525 | the slicing loop makes pages of 55 lines |
| `Pdf.PagesPartition` | apps/worker/src/index.ts:1523-1525 | the pages concatenate to the lines; all but the last are full, none is empty |
| `Pdf.EscapedOnce` | apps/worker/src/index.ts:1519 | the three replacements in their order escape each character once |
| `Pdf.LiteralRoundTrip` | apps/worker/src/index.ts:1519 | a literal string reader (ISO 32000-1, 7.3.4.2) stops at a line's own parenthesis and gets the line with each CR LF and CR as LF: the line itself if and only if it holds no CR |
| `Pdf.Objects` | apps/worker/src/index.ts:1527-1536 | page and content objects fill the numbers 4 to 3 + 2n, each once; `PdfReading.PagesAreShown` says what they amount to |
| `Pdf.Pad10Reads` | apps/worker/src/index.ts:1546 | an offset is ten digits if and only if it is below 10^10, and the digits read back as the offset |
| `Pdf.RenderPdf` | apps/worker/src/index.ts:1520-1549 | the bytes written are the encoded file text, with the byte offsets noted on the way; `PdfReading.ReportIsShown` says what a reader sees in them |
| `Pdf.EveryObjectIsFound` | apps/worker/src/index.ts:1537-1548 | a reader starting at the end of the file finds the table by startxref and, through its 20-byte entries, every object where it begins (ISO 32000-1, 7.5.4 and 7.5.5) |
| `Utf8.DecodeEncode` | apps/worker/src/index.ts:1549 | a decoder gets every text back from its UTF-8 bytes |
| `PdfReading.PagesAreShown` | apps/worker/src/index.ts:1526-1548 | a reader that follows trailer, catalogue, page tree, fonts and content streams (ISO 32000-1) finds one sheet of 792 by 612 for each page, in order, and on it the page's lines in Courier 6.5, cut to 150 characters and with ends of line as LF, 8 units below each other from (24, 580) |
| `PdfReading.ReportIsShown` | apps/worker/src/index.ts:1520-1548 | over all sheets it finds the title, the time, an empty line and each row of the CSV text with bars between its cells, all inside the sheet |
| `ExcelColumn.ExcelColumnName` | apps/worker/src/index.ts:1453-1458 | the while loop computes the column name |
| `ExcelColumn.ValueOfName` | apps/worker/src/index.ts:1453-1458 | names are A-Z strings and give their number back |
| `ExcelColumn.NameOfValue` | apps/worker/src/index.ts:1453-1458 | every A-Z string is the name of its number |
| `ExcelColumn.NamesInOrder` | apps/worker/src/index.ts:1453-1458 | numbers in order have names in order of length, then letters |
| `ExcelColumn.ReferencesDistinct` | apps/worker/src/index.ts:1502-1508 | no two cells of a sheet share a reference |
| `ExcelColumn.ReferencesInOrder` | apps/worker/src/index.ts:1502-1508 | along a row references increase exactly as columns do |
| `Ledger.SheetDifference` | apps/worker/src/index.ts:1155-1163 | assets less liabilities less equity with current earnings is what the included debits exceed the credits by |
| `Ledger.SheetBalancesIff` | apps/worker/src/index.ts:1122-1163 | the sheet of a branch on a day balances if and only if the branch's debits and credits up to then agree |
| `Ledger.SheetBalances` | apps/worker/src/index.ts:1122-1163 | balanced journals within one branch give a balanced sheet for every branch on every day |
| `Ledger.CrossBranchUnbalances` | apps/worker/src/index.ts:1124-1131 | any balanced transfer between two branches unbalances the sheet |
| `Ledger.PeriodResultIsGrowth` | apps/worker/src/index.ts:1145-1160 | the profit and loss of a period is what it adds to the current earnings on the balance sheet |
| `PostingRules.PostsIff` | apps/api/src/accounting-core/accounting-core.service.ts:716-747 | a rule posts exactly when some line remains, each remaining line has a known account and no negative amount, and the amounts balance |
| `PostingRules.PostedEffect` | apps/api/src/accounting-core/accounting-core.service.ts:716-760 | what a posted journal does to each account |
| `PostingRules.LineIsPosted` | apps/api/src/accounting-core/accounting-core.service.ts:721-747 | every line of the rule with an amount stands in the journal, on the account of its fixed or configured code and on its side |
| `PostingRules.ZeroLine` | apps/api/src/accounting-core/accounting-core.service.ts:717-720 | a line without an amount changes nothing, unless its flag says that it must not be skipped: then its account has to exist |
| `PostingRules.RefusalsMean` | apps/api/src/accounting-core/accounting-core.service.ts:721-747 | what each refusal means, and which comes first |
| `PostingRules.SeededSkipZero` | apps/api/prisma/seed.ts:473-631 | none of the seeded rules insists on a line without an amount |
| `PostingRules.PostedIsSound` | apps/api/src/accounting-core/accounting-core.service.ts:726-747 | every posted journal balances and stays in one branch |
| `PostingRules.PostedBooksBalance` | apps/worker/src/index.ts:1122-1163 | books written by the engine, whatever is configured, have a balanced sheet for every branch on every day |
| `PostingRules.PrepaidIsPaid` | apps/api/prisma/seed.ts:495-523 | prepayment and prepaid fulfilment both post if and only if the paid-order rule does and the advance account is configured, and then give every account the same balance |
| `PostingRules.CollectedIsPaid` | apps/api/prisma/seed.ts:506-523 | the same for fulfilment on credit and the customer receipt |
| `PostingRules.ReturnUndoesSale` | apps/api/prisma/seed.ts:473-631 | a full return (rule SALE-RETURN, lines 625-631) undoes the sale (SALE-CASH, lines 473-479) on every account but moves the revenue to the returns account |
| `OfflineQuote.CalculateOfflineQuote` | apps/pos/lib/offline.ts:101-149 | errors exactly for a discount above the subtotal or the first line without a usable tax code; otherwise the shares make up the discount and the quote is the sum of its lines: an inclusive rate leaves the total alone and its net is the price without tax to the nearest cent, a rate on top adds its tax to the nearest cent; net and tax make up the total, which is subtotal less discount when no tax comes on top |
| `OfflineQuote.LineIsTaxed` | apps/pos/lib/offline.ts:120-145 | what one line adds to the quote meets the definition of a tax inside or on top of the price |
| `OfflineQuote.BaseBounds` | apps/pos/lib/offline.ts:116-122 | each share is within half a cent of proportional; no line but the last is overdrawn, the last by at most (n - 2) / 2 cents |
| `OfflineQuote.ShortfallHappens` | apps/pos/lib/offline.ts:118-120 | for every n that bound is met |
| `OfflineQuote.ThreeLinesSuffice` | apps/pos/lib/offline.ts:116-122 | with at most three lines none is overdrawn |
| `OfflineQuote.AmountsNotNegative` | apps/pos/lib/offline.ts:126-145 | if the last line is not overdrawn, net and tax are not negative |
| `Cart.RunKeepsCap` | apps/pos/app/page.tsx:401-461 | from the empty cart on, over every sequence of add and change in which no unit joins a larger one under the same key, the pieces of each product stay within the stock, quantities stay positive and keys unique |
| `Cart.FixedFactorsFit` | apps/pos/app/page.tsx:405-461 | in particular when a key always stands for one factor |
| `Cart.AddIsSafeIff` | apps/pos/app/page.tsx:416-425 | adding to a line is safe for every stock that covers the cart if and only if the added factor is at least the stored one |
| `Cart.FactorMismatchBreaksCap` | apps/pos/app/page.tsx:416-425 | for every smaller factor the stock that breaks the cap: one piece short of one more unit of the stored line |
| `Cart.AddIsLargest` | apps/pos/app/page.tsx:406-426 | adding raises one line as far as asked or as far as the stock goes, and touches no other |
| `Cart.ChangeIsLargest` | apps/pos/app/page.tsx:450-461 | changing sets one line to what was asked or what fits; zero or less removes it |
| `Cart.KeyTextInjective` | apps/pos/app/page.tsx:405 | line keys as text tell lines apart when product ids hold no colon |
| `Cart.ReservedIsSoldIff` | apps/pos/lib/offline.ts:151-157 | the reserved quantity never overstates what the queue sold, and is exact if and only if no queued sale has a second line of the product or a larger unit |
| `Cart.AdmittedIsPlain` | apps/pos/app/page.tsx:286 | every cart an offline payment admits has one line per product, in base pieces |
| `Cart.DirectSalesNeverOversell` | apps/pos/app/page.tsx:286 | a day of sales paid offline never sells more than the server had |
| `Cart.PlainSalesNeverOversell` | apps/pos/app/page.tsx:401-404 | nor does a day with lost replies, if each sale whose reply was lost has one line of the product in base pieces |
| `Cart.SafeToLoseIff` | apps/pos/app/page.tsx:401-404 | a cart may lose its reply without the product being oversold, whatever the stock and whatever is paid offline afterwards, if and only if it has at most one line of the product, in base pieces |
| `Cart.NotPlainOversells` | apps/pos/lib/offline.ts:151-157 | for every other cart the stock and the next sale that oversell: all that the reservation leaves out is sold again |
| `Cart.BoxOversells` | apps/pos/app/page.tsx:616-619 | in particular a scanned box of any n > 1 pieces, paid online with its reply lost, is sold as 2n - 1 pieces |
| `Cart.RecallFitsIff` | apps/pos/app/page.tsx:488-507 | a recalled cart stays within every stock if and only if it holds one line per product |
| `Cart.RecallIsLargest` | apps/pos/app/page.tsx:488-507 | every held line of which one unit fits comes back with what was held or the most that fits, and no other does |
| `PosQueue.RoundShrinks` | apps/pos/app/page.tsx:344-377 | if applied counts match the APPLIED rows for sent sales, a round that goes on shortens the queue, so the loop ends |
| `PosQueue.RoundShrinksIff` | apps/pos/app/page.tsx:360-367 | a round shortens the queue if and only if some queued sale is reported APPLIED |
| `PosQueue.OnlyIdleRoundsGoOn` | apps/pos/app/page.tsx:344-377 | for any server, rounds that report a queued sale applied are at most as many as the sales gone, so only idle rounds can keep the loop going longer |
| `PosQueue.MiscountNeverStops` | apps/pos/app/page.tsx:344-377 | a server that counts sales applied but reports none of the queue so keeps the loop going through any number of rounds, the queue whole |
| `PosQueue.SyncKeepsOrder` | apps/pos/app/page.tsx:360-369 | every synchronisation keeps the queue strictly ordered by sequence |
| `PosQueue.StaysUntilApplied` | apps/pos/app/page.tsx:359-367 | a queued sale leaves the queue if and only if it was reported applied |
| `PosQueue.RoundLeaves` | apps/pos/app/page.tsx:359-367 | every sale stays as the last row of its id leaves it (conflict, failed or pending, with the row's reason), unchanged without a row, and goes if that row says APPLIED |
| `PosQueue.SentLaterIff` | apps/pos/app/page.tsx:345-367 | a sale that stays is sent by a later synchronisation without conflicts if and only if its row is not CONFLICT or, without a row, it was sendable before; with conflicts it is sent anyway |
| `PosQueue.SyncSettles` | apps/pos/app/page.tsx:344-377 | after a whole synchronisation a sale is in conflict or failed exactly as the last of all its rows says |
| `PosQueue.SyncKeepsOthers` | apps/pos/app/page.tsx:345-367 | sales of other cashiers stay exactly as they were |
| `PosQueue.AppliedTotalIsExact` | apps/pos/app/page.tsx:370-380 | the total told to the cashier is the number of sales that left the queue |
| `PosQueue.OldestFirst` | apps/pos/app/page.tsx:344-377 | with a server that stops a batch at its first failure, a synchronisation applies exactly the oldest eligible sales, in order |
| `PosQueue.SavedInOrder` | apps/pos/lib/offline.ts:76-78 | saving stores the same sales, ordered |
| `PosQueue.LoadSavedIff` | apps/pos/lib/offline.ts:65-78 | loading gives back the saved queue if and only if its numbers do not decrease, start at one or later, and every sale has its cashier |
| `PosQueue.OfflineStore.NextOfflineSequence` | apps/pos/lib/offline.ts:80-85 | the next number, starting again at one from an unusable stored value; it stays when it cannot be written |
| `PosQueue.OfflineStore.QueueSaleOffline` | apps/pos/app/page.tsx:308-331 | a sale joins the end of the queue under the next number, or the queue stays when writing the number or the queue fails; the order stays strict exactly when the number is above all others |
| `PosQueue.OfflineStore.SyncOfflineQueue` | apps/pos/app/page.tsx:333-390 | the loop computes the synchronisation, for every server that counts rightly, also when saving throws after a round |
| `PosPayment.StepKeepsInv` | apps/pos/app/page.tsx:579-624 | what every step of the payment protocol keeps |
| `PosPayment.SalesAtMostChanges` | apps/pos/app/page.tsx:589-593 | in every run a cart is sold at most as often as its payment was changed between attempts |
| `PosPayment.KeysAreChanges` | apps/pos/app/page.tsx:589-593 | when carts are put aside only without a pending payment, a cart has exactly as many keys as its payment had changes |
| `PosPayment.UnchangedPaymentSoldOnce` | apps/pos/app/page.tsx:589-624 | an unchanged payment is sold at most once, however often replies are lost, requests arrive late and the sale is queued and replayed |
| `PosPayment.KeysAreConsistent` | apps/pos/app/page.tsx:589-594 | one key always carries one payload, and no two carts are checked out under one key |
| `PosPayment.TwoKeysIff` | apps/pos/app/page.tsx:589-593 | two attempts of a cart for the same thing use two keys if and only if an attempt for something else stood between them |
| `PosPayment.CanSellBothIff` | apps/pos/app/page.tsx:589-624 | without another pay two keys can both be sold if and only if each was sent or stands in a copy of the queue |
| `PosPayment.SoldTwiceIff` | apps/pos/app/page.tsx:589-624 | two attempts of a cart for the same thing can be sold under two keys if and only if both were sent or queued and the cart was paid for something else in between |
| `PosPayment.RefusedIsNotSold` | apps/pos/app/page.tsx:593-598 | both: the key of a pay that was refused after drawing it is not sold |
| `PosPayment.RevertDuplicates` | apps/pos/app/page.tsx:592 | changing a cart and changing it back sells the first payment twice |
| `PosPayment.OwnSale` | apps/pos/app/page.tsx:469-481 | unless a cart is put aside while its payment is unanswered, each checkout is answered under a key drawn for that cart |
| `PosPayment.DrawnFromEarlierIff` | apps/pos/app/page.tsx:590-593 | a pay draws an earlier cart's key if and only if that cart's payment is still pending and is for the same thing |
| `PosPayment.OwnAttemptsIff` | apps/pos/app/page.tsx:590-593 | over every run each attempt used a key of its own cart if and only if no pay met another cart's pending payment for the same thing |
| `PosPayment.HoldSwallowsNextSale` | apps/pos/app/page.tsx:469-481 | otherwise an equal next cart is checked out by the sale already made |
| `PosPayment.QueuedStaysUntilSold` | apps/pos/app/page.tsx:308-331 | if no sale is queued during a synchronisation, every queued sale stays in storage until it is reported applied, and only made sales are |
| `PosPayment.NextReplyKeepsIff` | apps/pos/app/page.tsx:360-369 | after a reply storage holds exactly the sales of the synchronisation's own copy that were not reported applied; one queued since is gone whatever the reply says |
| `PosPayment.OverlapLosesSale` | apps/pos/app/page.tsx:338-369 | a run in which such a sale is nowhere and was never sent |
| `PosPayment.LostReplyKeepsIff` | apps/pos/app/page.tsx:324 | after a lost reply storage holds exactly the queue the payment saw when it left, and its own sale |
| `PosPayment.LostReplyRequeuesAppliedSale` | apps/pos/app/page.tsx:324 | a payment whose reply is lost writes back the queue it saw when it left, so that a sale applied meanwhile is queued again (and, under its old key, not made again) |
| `CategoryTree.TreeWalk.VisitParent` | apps/admin/app/modules/master-data.tsx:59 | the recursive visit ends for every parent relation and appends exactly the rows below the parent |
| `CategoryTree.GroupByParent` | apps/admin/app/modules/master-data.tsx:59 | grouping and sorting in place give each parent its children in order |
| `CategoryTree.CategoryTreeRows` | apps/admin/app/modules/master-data.tsx:59 | visits from the roots, then appends what was not reached, in the original order |
| `CategoryTree.RowsArePermutation` | apps/admin/app/modules/master-data.tsx:59 | every category is listed exactly once, cycles and missing parents included |
| `CategoryTree.TreeInPreorder` | apps/admin/app/modules/master-data.tsx:59 | each row follows its parent one level deeper, with only the parent's family in between; siblings stand by sort order, then name |
| `CategoryTree.DepthIff` | apps/admin/app/modules/master-data.tsx:59 | a category stands at a depth if and only if that many parents lead from it to a root |
| `CategoryTree.CategoryLabel` | apps/admin/app/modules/master-data.tsx:58 | the climbing loop ends for every parent relation and joins the names of the path |
| `CategoryTree.PathClimbs` | apps/admin/app/modules/master-data.tsx:58 | the path repeats no category, each is the parent of the next, and its top is a root, lacks its parent or closes a cycle |
| `CategoryTree.LabelBelowParent` | apps/admin/app/modules/master-data.tsx:58 | a root is labelled by its name, any other category of the tree by its parent's label and its own name |
| `CategoryTree.LabelMatchesDepth` | apps/admin/app/modules/master-data.tsx:58-59 | a category stands at a depth of the list if and only if its label has that many ancestors, the first a root |

## Left out

- HTTP sending, DNS and target checks, message adapters, secrets and signatures: only a success or failure remains of a send.
- Sending of webhook deliveries, notifications and approval expiry: the same claim patterns with fewer effects.
- Evaluation of rule conditions: the set of matching actions and endpoints is given, and may change between steps.
- Batches of 25 rows and their order: a worker may pick any eligible row.
- Time zones with daylight saving: a zone is a fixed offset of whole minutes.
- IEEE floating point and `Number.EPSILON`: cents are exact and rates are real numbers.
- The conversion of report values to text (`String(value ?? '')`): cells are given as text.
- XML text of the workbook, file writing and the other report listings: they only map rows to columns.
- Payments, promotions, notes and audit rows written when an order expires: stock only.
- The API's sale replay: its contract (`PosQueue.FairServer`, `PosQueue.InOrderServer`, one sale per key) is an assumption, in line with apps/api/src/sales/sales.service.ts:459-697.
- The rest of the seeded posting rules: the ones modelled are those whose combination has a meaning of its own.
- Zip.ZipStored: names are given as bytes, so their UTF-8 encoding is not part of the statement.
- Pdf.RenderPdf: lines are cut at 150 Unicode characters where the code counts UTF-16 units, and lone surrogates do not occur.
- Pdf.EveryObjectIsFound: for files whose table begins before byte 10^10, the limit of the ten-digit field; `Pdf.Pad10Reads` says the field overflows exactly there.
- PdfReading.PagesAreShown: for the same files, by the same limit.
- PdfReading.ReportIsShown: likewise.
- OfflineQuote.CalculateOfflineQuote: unit prices are whole cents and quantities whole numbers.
- Fractional quantities in the cart, and stock figures that change between two additions.
- Authentication and the reload of data after a synchronisation; the server is any function of round and batch.
- A sale entered again after the page was reloaded: it counts as another cart's, so nothing says it is made once.
- Storage that cannot be read when the page loads: the queue then starts empty.
- Cancelling and replaying a job or a delivery by an operator (apps/api/src/platform/platform.service.ts:586, 735-760).
- Events written while a run is under way: the set of events is fixed at its start.
- Changing a schedule's frequency, day or time begins a new sequence; running it at once adds a job outside the sequence.
- Messages, quotes and split payments around a payment: they do not touch the keys.
- The collation behind `localeCompare`: a rank given with each name.
