# lets_embed: a verified model

The repository runs an image search service: embedding workers that share one table, a search
server and its result page, a gateway, and a user worker that bills accounts and takes payments on
two chains. This project models the parts whose correctness comes from state, interleaving or
arithmetic, and proves what they are for, over all inputs and all runs.

| file | what it models |
|---|---|
| `account_do.dfy`, `account_worth.dfy`, `account_dedupe.dfy`, `account_quota.dfy`, `account_plan.dfy`, `config.dfy` | the billing account: charge, credit, subscribe, unsubscribe, alarm; worth, dedupe, quota and plan periods over whole runs |
| `payments.dfy`, `payments_rows.dfy` | the exactly-once top-up protocol over the payment table and the accounts |
| `claims.dfy` | the distributed claim protocol of the embedding workers |
| `phase.dfy`, `batches.dfy`, `messages.dfy`, `pipeline.dfy` | the embedding pipeline: trackers, permits, batches, writes |
| `calendar.dfy`, `rfc3339.dfy`, `siwe.dfy`, `text.dfy` | the timestamp and sign-in message parsers, against their printers |
| `base58.dfy` | the pages' base58 encoder, against a decoder |
| `top_k.dfy` | the bounded-heap tag selection, against filter, sort and take |
| `masonry.dfy`, `results.dfy` | the result page: greedy columns, paging, stale responses |
| `random.dfy`, `reaper.dfy` | reproducible random pages; unloading of idle models |
| `rates.dfy`, `price_feed.dfy` | money to points; the price feed's answer |
| `percent.dfy` | percent coding and form fields |
| `wrappers.dfy`, `arithmetic.dfy` | shared datatypes and arithmetic |

Code that updates state is a class or a method with loops, proved equal to a function of the old
state; what the source promises is then proved about that function, over runs where the promise is
about runs. The two distributed protocols are state machines whose steps are the requests to a
store: each may succeed, fail, or take effect and lose its answer, and any handler may die between
two steps.

Results that are not plain confirmations:

- Top-up: over all accounts a transaction is credited at most once if and only if the environment
  cannot both lose the answer to a credit and move a Solana wallet to another account
  (`Payments.OnceIffStableOrLossless`); on Ethereum it holds always. A
  'rejected' transaction was credited to nobody if and only if answers are never lost
  (`PaymentRows.RejectedIffLossless`). `user_worker/README.md` lists a
  missing sender check as a limitation, and ERC-20 as unimplemented; the code has both
  (`user_worker/src/payments.rs:511`, `user_worker/src/payments.rs:650`), and the model follows it.
- Claims: one holder per image, and 'completed' never left, both if and only if every claim is
  resolved within `reclaim_after`.
- Account: points credited before the first touch are lost (`AccountWorth.FirstTouch`). The worth
  bound holds nevertheless, from an account nobody touched.
- `points_for` is the exact, clamped quotient for all inputs if and only if the token has at most
  15 decimals; with more, a 128-bit overflow jumps to the ceiling.
- The date parser accepts days that do not exist, such as February 30, and reads them as days of
  the next month (`Rfc3339.MissingDaysAreAccepted`).
- Decoding undoes the `next` encoding exactly on text without a plus sign.

Check the project with `dafny verify dfyconfig.toml` (Dafny 4.11).

## Model

| member | source | states |
|---|---|---|
| AccountDo.UserAccount.EnsureInit | user_worker/src/account_do.rs:217-224 | the free grant replaces the balance of an account never touched, and nothing else changes |
| AccountDo.UserAccount.ReadWindowFields | user_worker/src/account_do.rs:235-256 | the figures are those of the stored window if it is still open, of a full one otherwise; nothing is written |
| AccountDo.UserAccount.Charge | user_worker/src/account_do.rs:285-415 | the whole new storage for each outcome (banned, repeat, refused, charged), the status code, and that the figures answered are those `/status` gives right after |
| AccountDo.UserAccount.RecordSeen | user_worker/src/account_do.rs:381-387 | only today's entry is added, and only the map of two days ago may go, on a day's first charge |
| AccountDo.UserAccount.Settle | user_worker/src/account_do.rs:366-399 | a charge draws from exactly one of window and balance, opens an elapsed window, and counts one view |
| AccountDo.UserAccount.PutWindow | user_worker/src/account_do.rs:391-399 | the `expect` on the window's start is discharged as a precondition its caller proves |
| AccountDo.UserAccount.Credit | user_worker/src/account_do.rs:417-440 | a key is applied once; a replay changes nothing and says so; the balance never goes below zero |
| AccountDo.UserAccount.Subscribe | user_worker/src/account_do.rs:448-491 | 200 exactly when the plan is known and the net price is covered; 400 and 402 leave the storage as it was |
| AccountDo.UserAccount.Unsubscribe | user_worker/src/account_do.rs:496-520 | the plan and window are gone and the prorated remainder is back in the balance |
| AccountDo.UserAccount.Alarm | user_worker/src/account_do.rs:187-208 | an ended plan lapses and its window closes; an alarm that is early or has no plan changes nothing |
| AccountDo.RefundBounds | user_worker/src/account_do.rs:133-139 | a refund is never negative and never more than the plan's price |
| AccountDo.SaneRun | user_worker/src/account_do.rs:285-520 | after any run the balance is not negative, a stored plan is a known one with a window, and usage counts are not negative |
| AccountWorth.ProratedBounds | user_worker/src/account_do.rs:133-139 | the prorated refund grows with the remaining time, from zero to exactly the price for a full period |
| AccountWorth.WorthDecays | user_worker/src/account_do.rs:133-139 | balance plus refund never grows with time alone |
| AccountWorth.SubscribeKeepsWorth | user_worker/src/account_do.rs:448-491 | buying, renewing and switching keep balance plus refund to the point, and the `max(0)` never bites |
| AccountWorth.LapseKeepsWorth | user_worker/src/account_do.rs:187-208 | the alarm's lapse (and unsubscribe, lines 496-520) keeps balance plus refund to the point |
| AccountWorth.FirstTouch | user_worker/src/account_do.rs:217-224 | the first touch adds the whole grant exactly when no points were credited before it |
| AccountWorth.ChargeLedger | user_worker/src/account_do.rs:366-390 | a charge lowers balance plus refund by exactly what it draws from the balance |
| AccountWorth.StepLedger | user_worker/src/account_do.rs:285-520 | each request of an initialised account changes its worth by the credit applied less the usage paid, no more and no less |
| AccountWorth.RunLedger | user_worker/src/account_do.rs:285-520 | over any run in time order, worth plus everything paid is at most the worth before plus the credits applied |
| AccountWorth.WorthBounded | user_worker/src/account_do.rs:217-520 | over any run of a new account, worth plus usage paid is at most 3,000 plus the positive credits, each key counted once |
| AccountDedupe.StoredStep | user_worker/src/account_do.rs:381-387 | a charge adds its own entry to its day's map and deletion touches neither of the two days looked at |
| AccountDedupe.SeenMatchesLogRun | user_worker/src/account_do.rs:291-387 | after any run the two maps hold exactly the charges of their days in the unbounded log |
| AccountDedupe.DedupeRefinesLog | user_worker/src/account_do.rs:39-43 | in any run, a request is free if and only if the same path was charged strictly less than 86,400 seconds before |
| AccountQuota.QuotaBounded | user_worker/src/account_do.rs:334-380 | from one successful subscribe to the next, after d seconds the windows have given at most limit * (d / WINDOW_SECS + 1), views and searches alike |
| AccountQuota.QuotaRolled | user_worker/src/account_do.rs:47-52 | a window opens at least a whole window length after the previous one, so its start pays for one more quota |
| AccountQuota.StatusPredictsCharge | user_worker/src/account_do.rs:71-127 | the figures `/status` computes without rolling say exactly whether the next charge draws from the window or is unlimited |
| AccountQuota.ChargeReportsStatus | user_worker/src/account_do.rs:347-364 | a refused charge never shows a window it did not store |
| AccountQuota.ChargeMovesStatus | user_worker/src/account_do.rs:366-415 | a charge on the window lowers the reported quota by exactly its units and leaves the other figure |
| AccountQuota.ChargeDecided | user_worker/src/account_do.rs:285-364 | a charge neither banned nor a repeat is refused if and only if `/status` shows no quota for it and the balance is below its cost, and paid from the balance if and only if there is no quota and the balance suffices |
| AccountQuota.PriceList | user_worker/src/account_do.rs:29-36 | without a plan an image takes 1 point, a video 5, a search 100, an embedding search 10, or nothing at all when the balance is short |
| AccountQuota.SubscribeOpensWindow | user_worker/src/account_do.rs:480-486 | a plan just bought shows its own quotas in full, until one window length later |
| AccountQuota.FullAtReset | user_worker/src/account_do.rs:142-147 | at the reset time `/status` reported, whatever was requested until then, an account whose plan is still active and was not bought anew has its full quota |
| AccountQuota.ResetShown | user_worker/src/account_do.rs:334-346 | the reset time shown is ahead, and a charge opens a new window exactly when none was shown |
| AccountQuota.TotalViewsCount | user_worker/src/account_do.rs:386-389 | over any run the view counter counts the charges, repeats and refusals left out |
| AccountPlan.PeriodsNeverStack | user_worker/src/account_do.rs:477-482 | over every run of a new account a stored plan ends at most one of its periods after the last request, however often it is bought |
| AccountPlan.PlanLastsOnePeriod | user_worker/src/account_do.rs:448-491 | after a successful subscribe, whatever else is requested, the plan is active at t if and only if t is before the end of one period |
| AccountPlan.UnsubscribeEnds | user_worker/src/account_do.rs:496-520 | after unsubscribe no plan is stored and the whole worth is balance |
| AccountPlan.AlarmEnds | user_worker/src/account_do.rs:187-208 | an alarm at or after the end leaves no plan and no window, and one during the plan changes nothing |
| Payments.InvStep | user_worker/src/payments.rs:347-780 | every step of every handler, lost answers and crashes included, keeps the protocol invariant |
| Payments.TopupSafety | user_worker/src/payments.rs:347-780 | in every reachable state: one holder per transaction row, a 'credited' row's account carries the marker, an answered 200 has its credit applied, an account applies a hash at most once |
| Payments.SettledForever | user_worker/src/payments.rs:201-225 | a 'credited' or 'rejected' row never changes again, although neither update asks for the status |
| Payments.EthereumOnce | user_worker/src/payments.rs:511-517 | an Ethereum transaction is credited at most once over all accounts, whatever is lost |
| Payments.LosslessStep | user_worker/src/payments.rs:737-780 | while answers arrive, a credited transaction keeps its row and no handler can credit it again |
| Payments.StableStep | user_worker/src/payments.rs:347-440 | while wallets stay, a Solana credit goes to the account the sending wallet belongs to |
| Payments.DoubleCredit | user_worker/src/payments.rs:753-763 | a concrete run with a lost answer and a relinked wallet credits one signature to two accounts |
| Payments.OnceIffStableOrLossless | user_worker/src/payments.rs:347-780 | at most one credit per transaction in every run if and only if lost answers and relinked wallets do not both occur |
| PaymentRows.AnsweredMeansCredited | user_worker/src/payments.rs:737-780 | whoever was answered 200 finds the row under the own account and never 'rejected'; and 'credited' with the handler's points when no write failed |
| PaymentRows.RejectedIffLossless | user_worker/src/payments.rs:201-212 | no 'rejected' transaction is credited to any account, in every run, if and only if answers are never lost |
| PaymentRows.RejectedMeansFlawed | user_worker/src/payments.rs:511-517 | a row is rejected only for a flaw of the transaction itself: a wrong sender, a failed request or a lost answer cannot block it |
| PaymentRows.PendingIsHeld | user_worker/src/payments.rs:214-225 | where handlers may finish, a row is pending only while some handler works on it, so what was not settled can be submitted again |
| PaymentRows.CreditsAreVerified | user_worker/src/payments.rs:562-584 | every credit applied has the points some handler of that account verified, at least the minimum, for the sender it accepts |
| Claims.AttemptLedger | embed/src/cli.rs:322-344 | no attempt counter passes 6, and every row handed out uses up exactly one of the table's remaining attempts |
| Claims.FetchTerminates | embed/src/cli.rs:365-373 | all workers together make at most 6 non-empty claims per row, so a loop that stops at an empty claim stops |
| Claims.HoldRun | embed/src/cli.rs:322-344 | when claims are resolved in time, every live claim is the one its row shows, no image has two holders, and completed rows stay |
| Claims.SecondHolderIffOverdue | embed/src/cli.rs:327-344 | a held image can be claimed again exactly when it is overdue with attempts left, and then has two holders |
| Claims.OneHolderIffTimely | embed/src/cli.rs:322-344 | no run gives an image two holders if and only if claims are resolved within `reclaim_after` |
| Claims.CompletedIffTimely | embed/src/cli.rs:728-759 | no run leaves 'completed' if and only if claims are resolved within `reclaim_after`, as the updates name rows by id alone |
| Claims.RetryIff | embed/src/cli.rs:322-344 | an image that failed can be claimed again at once until it has had its six attempts, and a completed one never |
| Claims.CompletedIffDone | embed/src/cli.rs:728-759 | with timely claims an image is 'completed' exactly when it was before or some claim of it was completed |
| Phases.Tracker.constructor | embed/src/phase.rs:95-101 | a new tracker is counted in its phase and nothing else moves |
| Phases.Tracker.Enter | embed/src/phase.rs:104-110 | an image moves from its phase's count to the next one's and its stay is recorded |
| Phases.Tracker.Discard | embed/src/phase.rs:114-118 | the count goes down and no stay is recorded |
| Phases.Tracker.Drop | embed/src/phase.rs:121-132 | the count goes down and the stay is recorded |
| Phases.Meters.StartAll | embed/src/cli.rs:312-315 | one new tracker per permit, each counted in the claim phase |
| Phases.Meters.EnterAll | embed/src/cli.rs:510-512 | a batch moves on together, one stay recorded per image, no other tracker touched |
| Phases.Meters.DropAll | embed/src/cli.rs:775-776 | the images of a finished write stop counting, each with its stay |
| Phases.Meters.CountsAddUp | embed/src/phase.rs:3-6 | the counts of all phases add up to the trackers that exist |
| Phases.PhasesPartition | embed/src/phase.rs:20-38 | every tracker is in exactly one of the eight phases |
| Batches.SplitIsPermutation | embed/src/cli.rs:515-529 | the fold puts every id of a batch on exactly one side |
| Batches.InferKeepsIds | embed/src/cli.rs:515-577 | whatever the models do, each id of the batch comes out exactly once |
| Batches.InferPlaces | embed/src/cli.rs:555-567 | the k-th decoded image gets the k-th result if there is one; undecoded ones get none exactly when the models return no more results than they had inputs |
| Batches.PairsOwn | embed/src/cli.rs:530-577 | with models that answer image by image, a batch gives each id the result its image would get alone |
| Batches.ModelErrorFailsAll | embed/src/cli.rs:568-575 | when a model fails, no image of the batch is completed and all are reset |
| Batches.PushTags | embed/src/cli.rs:665-669 | the three tag arrays stay aligned and gain one row per tag |
| Batches.SplitWrite | embed/src/cli.rs:655-676 | every image of the batch is at its own place: failed among the failed ids, or completed with each embedding in its own column and each tag with its own name and score; and nothing else is in the arrays |
| Batches.PlacesGrow | embed/src/cli.rs:662-676 | later completed images have later places in the arrays |
| Batches.PlaceTaken | embed/src/cli.rs:662-676 | every place in the arrays belongs to a completed image |
| Batches.OwnRow | embed/src/cli.rs:515-676 | end to end, a decoded image's row holds its own two embeddings, each in its column, and its own tags with their scores |
| Batches.WritePartitions | embed/src/cli.rs:662-676 | a write completes or fails every id of its batch, exactly as often as it is there |
| Batches.MergedWrite | embed/src/cli.rs:636-645 | batches merged into one write are completed and failed as they would be alone |
| Batches.DecodedIsCompleted | embed/src/cli.rs:515-676 | through both stages, exactly the decoded images are completed and exactly the others reset |
| Pipelines.Pipeline.FetchBatch | embed/src/cli.rs:300-375 | each row found becomes one image with one permit and one tracker; the other permits and trackers go back without a stay; a failed query takes nothing in |
| Pipelines.Pipeline.KeepFirst | embed/src/cli.rs:357-358 | the trackers beyond the rows found are discarded, all others untouched |
| Pipelines.Pipeline.HandOut | embed/src/cli.rs:358-363 | the ticket is split into one permit per row and the rest |
| Pipelines.Pipeline.Advance | embed/src/phase.rs:104-110 | one message moves to another phase with all its trackers, and permits, images and trackers stay matched everywhere |
| Pipelines.Pipeline.StartDownload | embed/src/cli.rs:401-403 | a claimed image enters the download phase |
| Pipelines.Pipeline.FinishDownload | embed/src/cli.rs:407-420 | a read image, or a failed read, waits for a decoder |
| Pipelines.Pipeline.StartDecode | embed/src/cli.rs:433-434 | a read image enters the decode phase |
| Pipelines.Pipeline.FinishDecode | embed/src/cli.rs:437-463 | the image waits for the device with what the decoder gave, none without bytes |
| Pipelines.Pipeline.Replace | embed/src/cli.rs:424-430 | after a panic a new tracker takes the dropped one's place, and permits still match images |
| Pipelines.Pipeline.GatherBatch | embed/src/cli.rs:501-509 | a batch is the first decoded images in order, and stops only at the batch size or when nothing is ready |
| Pipelines.Pipeline.InferStep | embed/src/cli.rs:495-583 | the gathered batch comes out once, with the models' results, its merged ticket and all its trackers, and every id in flight is still there as often as before |
| Pipelines.Pipeline.GatherWrite | embed/src/cli.rs:636-645 | a write starts with the first batch queued and takes in at most fifteen more, as long as any is queued |
| Pipelines.Pipeline.StartWrite | embed/src/cli.rs:625-648 | the merged batches enter the write phase together and lose no id |
| Pipelines.Pipeline.FinishWrite | embed/src/cli.rs:654-777 | the images leave with their permits and trackers, the arrays written hold each of them at its place, and exactly the completed ones of a successful write count as throughput |
| Pipelines.Pipeline.Lose | embed/src/phase.rs:85-86 | a message lost to an error takes its permits and trackers along |
| Pipelines.Pipeline.TrackersDistinct | embed/src/phase.rs:3-6 | no image of a message shares its tracker with another |
| Pipelines.Pipeline.PhaseCounts | embed/src/phase.rs:3-6 | between any two steps each phase's meter shows the images in that phase, and together they show the permits in flight |
| Messages.GatherKeeps | embed/src/cli.rs:503-509 | merging tickets and trackers keeps one permit and one tracker per image, and every id |
| Calendar.NextDayCounts | user_worker/src/siwe.rs:293-300 | the closed form counts one more for the next day, over month ends, leap days, centuries and eras |
| Calendar.CountsEveryDate | user_worker/src/siwe.rs:293-300 | for every valid date from 1970 on, the closed form is the number of days counted one by one |
| Calendar.ClosedFormCounts | user_worker/src/siwe.rs:293-300 | the n-th day after 1970-01-01 is a valid date and has day count n |
| Calendar.OverflowRollsOver | user_worker/src/siwe.rs:293-300 | a day past the end of its month counts as that many days into the next |
| Rfc3339.SkipFraction | user_worker/src/siwe.rs:265-276 | the fraction ends at its last digit and must have one |
| Rfc3339.ParseRfc3339Epoch | user_worker/src/siwe.rs:234-304 | the parser's loops and early returns compute the specified reading of the string |
| Rfc3339.ReadIffPrinted | user_worker/src/siwe.rs:234-291 | a timestamp is read from a string if and only if the string is its printing |
| Rfc3339.AcceptsExactlyPrinted | user_worker/src/siwe.rs:234-304 | accepted are exactly the printed well-formed timestamps not before the epoch, at the instant they name |
| Rfc3339.PrintParse | user_worker/src/siwe.rs:234-304 | an instant printed in any zone whose local time is in 1970..9999, with any fraction, parses back to itself; local time is UTC plus the hours and minutes after '+', less those after '-' |
| Rfc3339.OffsetShifts | user_worker/src/siwe.rs:278-302 | replacing the 'Z' of a text by '+hh:mm' makes it that much earlier, by '-hh:mm' that much later |
| Rfc3339.KnownWest | user_worker/src/siwe.rs:457-460 | "1996-12-19T16:39:57-08:00" is second 851042397 |
| Rfc3339.KnownEast | user_worker/src/siwe.rs:461-464 | "1996-12-20T08:39:57+08:00" is the same second |
| Rfc3339.MissingDaysAreAccepted | user_worker/src/siwe.rs:261-263 | a date past the end of its month is accepted at the instant of a date of the next month |
| Siwe.Cursor.Next | user_worker/src/siwe.rs:51-59 | the next line, or an error at the end that moves nothing |
| Siwe.Cursor.Peek | user_worker/src/siwe.rs:61-63 | the next line without moving |
| Siwe.Cursor.Field | user_worker/src/siwe.rs:65-71 | the value after the prefix, or the field's own error |
| Siwe.Cursor.ReadHead | user_worker/src/siwe.rs:83-96 | domain, address and blank line, with each check's error in order |
| Siwe.Cursor.Statement | user_worker/src/siwe.rs:100-113 | the statement block ends at a blank line, or at once before the first field; the loop ends |
| Siwe.Cursor.ReadFields | user_worker/src/siwe.rs:116-123 | the five fields in order |
| Siwe.Cursor.Expiration | user_worker/src/siwe.rs:125-132 | the optional expiration is taken only when it is next |
| Siwe.Cursor.Trailing | user_worker/src/siwe.rs:135-150 | the walk over the rest ends, and succeeds exactly on tolerated lines |
| Siwe.ParseSiwe | user_worker/src/siwe.rs:74-163 | the cursor parser returns the specified record or the specified first error |
| Siwe.StatementIff | user_worker/src/siwe.rs:98-114 | which blocks are read as which statement, both blank-line forms included |
| Siwe.ParseIffPrinted | user_worker/src/siwe.rs:74-163 | lines parse to a record if and only if they are a printing of that well-formed record |
| Siwe.MessageRoundTrip | user_worker/src/siwe.rs:74-163 | a printed message, as one string, parses back to its record |
| Siwe.CrLfRoundTrip | user_worker/src/siwe.rs:75-81 | a printed message whose lines end in carriage return and newline parses back to its record |
| Siwe.ToleratedIff | user_worker/src/siwe.rs:135-150 | accepted after the fields are exactly lines of the three kinds, items below "Resources:" or another item, and blank lines at the end |
| Siwe.PageMessageParses | user_worker/src/pages/login.html:110-119 | the page's message format parses back for any clean one-line statement |
| Siwe.LoginMessageParses | user_worker/src/pages/login.html:110-119 | whatever clean text the login page fills in, the server reads the record the page meant |
| Base58.FoldByte | user_worker/src/pages/login.html:154-160 | one byte folded into the digits in place multiplies their number by 256 and adds the byte; the carry stays below 256 |
| Base58.MulAddCanonical | user_worker/src/pages/login.html:154-160 | folding in a byte gives the canonical digits of the larger number |
| Base58.ToDigits | user_worker/src/pages/login.html:152-161 | after the loop the digits are the canonical base-58 digits of the number the bytes spell |
| Base58.PutOnes | user_worker/src/pages/login.html:163 | one '1' per leading zero byte, one fewer for all-zero input |
| Base58.Bs58Encode | user_worker/src/pages/account.html:174-191 | the in-place algorithm computes the specified encoding |
| Base58.EncodeShape | user_worker/src/pages/account.html:170-173 | the text starts with exactly as many '1's as there are leading zero bytes, all-zero input included, and the rest spells the rest |
| Base58.RoundTrip | user_worker/src/pages/login.html:149-166 | a reference decoder gives every byte string back |
| Base58.EncodeInjective | user_worker/src/pages/login.html:149-166 | no two byte strings have the same text |
| TopK.MinHeap.Push | wd_tagger/src/lib.rs:190-197 | the heap keeps its order and gains exactly the entry |
| TopK.MinHeap.Pop | wd_tagger/src/lib.rs:192-196 | the entry that leaves is least |
| TopK.Offer | wd_tagger/src/lib.rs:190-197 | a new entry is kept, exchanged for the least, or dropped, and nothing dropped beats anything kept |
| TopK.PassingIff | wd_tagger/src/lib.rs:184-189 | the candidates are exactly the positions whose score reaches the threshold of their own kind |
| TopK.Select | wd_tagger/src/lib.rs:182-198 | the heap ends with the min(k, n) best of the passing entries |
| TopK.SortedUnique | wd_tagger/src/lib.rs:200-205 | a descending sequence is determined by its contents, so the reference sort is the only one |
| TopK.KeptIsTop | wd_tagger/src/lib.rs:173-206 | if nothing dropped beats anything kept, the kept scores in order are the first of the whole sort |
| TopK.TopKHeap | wd_tagger/src/lib.rs:173-206 | the scores are the first k of all passing scores sorted, each with its own tag, from distinct positions, for every k |
| Masonry.GrowBalanced | search/app/src/components/results.rs:314-332 | a placement into the first shortest column keeps any two heights within the tallest item plus the padding |
| Masonry.PlaceAllOk | search/app/src/components/results.rs:314-350 | after any placements the columns are balanced, each height is the sum of its boxes, and the page holds exactly the shown items placed |
| Masonry.RowsHoldEverything | search/app/src/components/results.rs:79-83 | reading the columns row by row loses and repeats no item |
| Masonry.RowOrder | search/app/src/components/results.rs:81-83 | the items are read top to bottom, and left to right within a row |
| Masonry.RelayoutOk | search/app/src/components/results.rs:68-119 | relayout to any number of columns keeps every item, as often as it was there, and is balanced again |
| Results.ResultsPage.LoadPage | search/app/src/components/results.rs:369-374 | the newest request id is taken and every request in flight becomes stale |
| Results.ResultsPage.OnParams | search/app/src/components/results.rs:136-151 | a new search shows nothing of the old one and asks for its first page |
| Results.ResultsPage.OnSentinel | search/app/src/components/results.rs:158-171 | one request for the page right after the last merged, and none while loading or at the end |
| Results.ResultsPage.PlacePost | search/app/src/components/results.rs:314-332 | the post goes into the first shortest column, or nowhere without a cover |
| Results.ResultsPage.PlaceImage | search/app/src/components/results.rs:334-350 | the image goes into the first shortest column and into the viewer's list |
| Results.ResultsPage.PlacePage | search/app/src/components/results.rs:404-413 | a page's posts are placed before its images, and only the images go into the viewer's list |
| Results.ResultsPage.FinishPage | search/app/src/components/results.rs:412-419 | after a merge nothing is loading and the next page to ask for is the one after it |
| Results.ResultsPage.OnResponse | search/app/src/components/results.rs:376-420 | a superseded response changes nothing; the current one is merged or ends the search; the page holds only the current search's items, at offsets 0, limit, 2*limit, ... |
| Results.ResultsPage.OnWidth | search/app/src/components/results.rs:68-119 | the relayout loop keeps the items of the page |
| Results.LayoutFits | search/app/src/components/results.rs:69-72 | the column count is the one that brings a column nearest to 360 pixels, at least one, and the columns fill the width to half a pixel each |
| Results.PagesArePrefix | search/app/src/components/results.rs:158-171 | with a server that answers each search from one list, the merged pages are a prefix of it: no gap, no repeat |
| Results.ShownIsPrefix | search/app/src/components/results.rs:136-171 | the screen shows exactly that prefix, each item as often as it is in it |
| Random.MixIsBijection | search_engine/src/lib.rs:28-32 | `mix64` is a bijection on 64-bit words, with an explicit inverse |
| Random.HashIsBijection | search_engine/src/lib.rs:42-44 | for one seed no two places share a raw hash and every hash is taken |
| Random.SeedsDiffer | search_engine/src/lib.rs:42-44 | two seeds agree on no place |
| Random.PlacesDiffer | search_engine/src/lib.rs:41-44 | for a fixed seed the raw hash is injective in the signed 64-bit index, negative ones included |
| Random.SameIdIff | search_engine/src/lib.rs:44 | two hashes give the same id exactly when they agree modulo the size of the range |
| Random.EveryIdOccurs | search_engine/src/lib.rs:44 | every id in [min, max] is the id of infinitely many numbers, one in each span |
| Random.RandomPage | search_engine/src/lib.rs:43-46 | the loop with its seen-set computes the first occurrences of the stream |
| Random.RandomIds | search_engine/src/lib.rs:40-47 | the ids of a page are distinct and in [min, max] |
| Random.PageIsDistinct | search_engine/src/lib.rs:43-46 | a page holds exactly the ids of its part of the stream, each once, in first-occurrence order |
| Random.PageIds | search_engine/src/lib.rs:43-46 | a page holds exactly the ids of the next `limit` places, as far as places go |
| Random.PagesJoin | search_engine/src/lib.rs:34-46 | a page of a+b is the dedupe of the adjacent pages of a and b, saturation included |
| Rates.ExactWhenItFits | user_worker/src/rates.rs:30-43 | while amount*price fits 128 bits the two floors lose nothing against one |
| Rates.ExactIff | user_worker/src/rates.rs:30-43 | exactly when the result is the exact clamped quotient |
| Rates.ExactForAllIff | user_worker/src/rates.rs:30-43 | exact for every 128-bit amount and price if and only if there are at most 15 decimals |
| Rates.Monotone | user_worker/src/rates.rs:30-43 | more money or a higher price never earns fewer points |
| Rates.SplittingNeverGains | user_worker/src/rates.rs:30-43 | unsaturated, paying in two parts earns at most as much as at once, and at most one point less |
| Rates.DollarsToPoints | user_worker/src/rates.rs:26-32 | a dollar of a stablecoin is 10,000 points at any number of decimals |
| PriceFeed.WordIff | user_worker/src/rates.rs:84-90 | a 32-byte word is accepted exactly when its value fits 128 bits |
| PriceFeed.SignIff | user_worker/src/rates.rs:107-113 | the first digit tells exactly whether the signed word is negative |
| PriceFeed.LetterCase | user_worker/src/rates.rs:89 | capital and small hexadecimal letters are the same digits |
| PriceFeed.DecodeIff | user_worker/src/rates.rs:97-125 | accepted are exactly the well-formed answers with a positive price in range and a fresh update, and the price is the second word's value |
| PriceFeed.PrintedRound | user_worker/src/rates.rs:92-125 | a printed round gives its price back exactly when that is positive, in range and fresh |
| Reaper.WaitBounds | search_engine/src/lib.rs:118-127 | the next look at a session is between the end of its timeout and a second later, on time exactly when a second or more is left |
| Reaper.UnloadedInTime | search_engine/src/lib.rs:93-134 | in any run a session is unloaded no earlier than the timeout after its last use and less than a second later than that, and never without a timeout |
| Reaper.LastUsedIsLastUse | search_engine/src/lib.rs:93-104 | the stored time is that of the last request that got a session |
| Reaper.LazyModel.GetSession | search_engine/src/lib.rs:93-104 | at most one session is stored; a failed load changes nothing |
| Reaper.LazyModel.Reap | search_engine/src/lib.rs:114-131 | one round of the reaper, and how long it sleeps |
| Percent.PercentDecode | gateway_worker/src/lib.rs:350-374 | the index loop computes the decoding; output is never longer than input |
| Percent.ReadByte | gateway_worker/src/lib.rs:355-371 | one round takes a plus sign, a well-formed escape, or one byte as it is, also at the end of the input |
| Percent.UnchangedIff | gateway_worker/src/lib.rs:350-374 | text passes through unchanged exactly when it has no plus sign and no well-formed escape |
| Percent.EncodeNext | gateway_worker/src/lib.rs:275-287 | the loop escapes the four characters and copies the others |
| Percent.NextIsSafe | gateway_worker/src/lib.rs:279-282 | no '&', '?' or '#' is left in an encoded value |
| Percent.NextLeavesPlain | gateway_worker/src/lib.rs:283 | a value without the four characters is left as it is, and any of them makes it longer |
| Percent.LetterCase | gateway_worker/src/lib.rs:361-362 | an escape reads the same in capital and small letters |
| Percent.NextRoundTrip | gateway_worker/src/lib.rs:275-287 | decoding undoes the encoding, plus signs becoming spaces: the identity exactly without plus signs |
| Percent.FormRoundTrip | gateway_worker/src/lib.rs:350-374 | decoding undoes the form serialiser on every byte string |
| Percent.FormFieldRoundTrip | gateway_worker/src/lib.rs:341-347 | in a serialised form, a field whose name needs no escaping is found and its value read back, and an absent one is none |

## Left out

- Transport: requests, D1, KV, durable-object RPC and JSON are step outcomes or parameters. A D1 write that is applied long after its error was reported is not modelled.
- Cryptography: signatures, hashes, tokens; `verify_solana` and the chain's answers are outcomes chosen by the environment.
- The clock is a parameter that never goes back, and past the second day of 1970 for accounts, since the code computes `day - 2`.
- AccountDo.UserAccount.Subscribe: setting and deleting the alarm itself, and the status body of the answer; the alarm may come at any time instead. The stored address, admin pages and the status text are left out too.
- AccountDo.UserAccount.Credit: balances are unbounded integers; the code does not guard an i64 overflow.
- AccountDo.UserAccount.RecordSeen: the number of day maps is not bounded when days pass without a charge, since only the map of two days ago is dropped, so no bound is stated.
- Payments.TopupSafety: the points of a 'credited' row may differ from those applied when the price moves between retries, so they are not related. The Transfer-log scan, address normalisation and amount parsing of the handlers are part of the chain's verdict.
- Claims.AttemptLedger: rows are not inserted during a run, and ids are positions in the table.
- Pipelines.Pipeline.FetchBatch: how many permits the gate grants is a parameter; its pacing is in another library. Workers of the pipeline run one stage step at a time.
- Pipelines.Pipeline.Advance: `messages` is one sequence instead of the three channels; it keeps the order in which messages came into each phase.
- Batches.SplitWrite: the tag and embedding statements themselves, and the rounding to half precision.
- Siwe.ParseSiwe: a character stands for one byte; signature recovery and checksummed addresses are not modelled.
- Rfc3339.ParseRfc3339Epoch: a character stands for one byte.
- Base58.ToDigits: the growing JavaScript array is a sequence that the method reassigns.
- TopK.TopKHeap: scores are real numbers, so NaN and signed zero do not occur; the heap is kept as an ordered sequence instead of the library's tree.
- Masonry.RelayoutOk: the rendered height of an image at a width is any function; heights do not overflow 32 bits. Reading and rendering of signals, the viewer and the lightbox are left out.
- Results.ResultsPage.OnParams: a change of parameters and its effect are one step, and the first layout comes before the first request.
- Random.RandomIds: an overflow of `max - min + 1` past 64 bits is not shown.
- Reaper.UnloadedInTime: loading takes no time and sleeps are exact; a caller may keep an unloaded session alive.
- Rates.ExactForAllIff: `10^decimals` is exact here; the code's power overflows above 38 decimals.
- Percent.FormFieldRoundTrip: replacement of invalid UTF-8 before and after decoding.
- Search queries, tag upserts, vector indexes, telemetry, HTML, proxying, likes and paging of the admin pages: easy members or foreign systems.
