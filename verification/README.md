# Grok manager: isolation ledger, SSO lists and worker pools

A Dafny model of the credential manager's core, with proofs of what it is relied on for.

- **The autoban ledger** (`BanTable`, `BanLaws`, `BanLedger`, `BanRuns`, `BanEvents`, `BanAccounts`, `BanFile`,
  `BanLimits`, `Policy`). Credentials that fail with 401, 402, 403 (sections 15.5.2 to 15.5.4 of RFC 9110) or 429
  (section 4 of RFC 6585) are isolated for a time. `BanState` is the mutex-protected object with its two maps and its
  dirty flag; every method is one locked section, loops over Go maps take an arbitrary order, and each method is
  proved against a function on the table. `BanLaws` says field by field what these functions make of a row. `BanRuns`
  lets these sections interleave freely and proves what holds over whole runs; `BanEvents` proves that the object
  performs them.
- **Who asks and who reports** (`Scheduler`, `ScanSync`, `Reconcile`, `RecheckWork`, `Recheck`). The scheduler hook,
  usage records, scan results and the recheck pass act on the ledger; `Reconcile` is the theory of a batch of findings
  that scan sync and recheck share.
- **Worker pools** (`PoolSums`, `ScanPool`, `ImportPool`, `ImportOutcomes`). The scan and import pools are step
  systems over channels, counters, result slots and cancellation; a probe or conversion may answer anything.
- **SSO lists** (`SsoList`, `SsoLaws`, `SsoFormats`, `SsoExport`, `SsoPreview`, `Sorting`). The reader of pasted
  lists, the formats it documents, the exporter that prints lists, the round trip between the two, the import
  preview's figures, and the dropping of repeated accounts.
- **The vault** (`Vault`) merges cookies through two position indexes that go stale; **pages** (`Paginate`) cut lists.

`Text` holds the string operations with the facts about trimming and lower-casing that everything rests on.

## Where the code does not keep the obvious promise

- *A row under its normalised e-mail* needs auth ids that double as e-mails to be lower-case: a mail-less report
  copies such an id into the row unchanged (`SetKeepsTable` has the exact condition). There is still one row per
  e-mail until a heal lands beside such a row or a file with two spellings is loaded; `OneRowPerEmail` has the exact
  condition for runs, `UpperCaseIdSplitsTheAccount` a run that fails. Accounts reported by e-mail stay isolated across
  it.
- *Isolation until released* holds for addresses only: the row of a name without `@` can be healed away
  (`IsolationLastsIff`).
- *Every saved row is loaded back* fails for 429 rows that expired before the save: saving drops them although loading
  would keep them (`LimitLostBySaving`, `LimitComesBackIff`). `SaveLoadRoundTrip` states which rows come back, and
  when.
- *Everything exported can be imported* fails for e-mails the reader takes for something else, among them long ones
  such as `christopher.montgomery@x.com`. `LineRoundTripIff` and `VaultRoundTripIff` have the exact condition.
- *The documented `sso,email` line* is not cut at its comma when it starts with `eyJ`, as most cookies do
  (`CommaFormatIff`), and *`sso----email`* loses the dashes that touch its separator: `eyJa.b.c-` followed by
  `----x@y.com` reads as the cookie `eyJa.b.c` (`CookieFirstReads`, `CookieFirstReadsIff`).
- *Every imported e-mail can be found in the vault* fails when a new e-mail arrives with a cookie that an earlier item
  or the vault pairs with another e-mail. `AllFoundIff` has the exact condition on vault and list; what a take-over
  loses never comes back beside the e-mail that replaced it, because an indexed position never changes.
- *The preview's lines add up* needs one more term for lines that are blank only behind a byte order mark;
  `FiguresAddUp` states it for every text, `BlankBehindMarkCounts` a text that needs it. *Its figures foretell the
  import* as long as both read every line alike. They may not at a line that still starts with a byte order mark after
  one was stripped: there the figures fit if and only if both read the same cookie (`SecondMarkDecides`), and for a
  token behind two marks they do not (`SecondMarkMiscounts`).

## Model

| member | source | states |
|---|---|---|
| BanLedger.BanState.Set | src/grok-manager/lib/autoban.go:92-185 | a failure report leaves exactly `SetTable` of the old rows; every key still spells its row's e-mail, one row per e-mail and an index equal to the linear scan stay so, and rows stay keyed by the normalised e-mail if and only if the report is canonical |
| BanLedger.BanState.Lookup | src/grok-manager/lib/autoban.go:212-237 | with an exact index the answer is one the lookup order allows (key, lower-cased key, index, then any matching AuthRef), and "not found" only when none is; while the index misses rows a key still comes first, an answer has the e-mail or the AuthRef asked for, and "not found" means no key and no AuthRef matches |
| BanLedger.BanState.Active | src/grok-manager/lib/autoban.go:240-259 | true exactly when the row found is in force; an expired row is dropped, a 429 row never; index and one-row-per-e-mail survive |
| BanLedger.BanState.Clear | src/grok-manager/lib/autoban.go:261-273 | removes exactly the row found, if any |
| BanLedger.BanState.ClearAll | src/grok-manager/lib/autoban.go:275-284 | empties the ledger and reports how many rows it held |
| BanLedger.BanState.ClearStatus | src/grok-manager/lib/autoban.go:286-302 | removes exactly the rows of one code, in any iteration order, and counts them |
| BanLedger.BanState.ClearMany | src/grok-manager/lib/autoban.go:304-324 | removes exactly the rows keyed by one of the ids, each counted once however often it is named |
| BanLedger.BanState.ClearByEmail | src/grok-manager/lib/autoban.go:326-361 | removes exactly the rows that belong to one e-mail by key, index or stored e-mail, and counts them |
| BanLedger.BanState.Snapshot | src/grok-manager/lib/autoban.go:363-396 | returns the table it leaves: expired rows purged, 429 rows healed to the cap and kept; dirty exactly when a row changed |
| BanLedger.BanState.AttachEmail | src/grok-manager/lib/autoban.go:685-738 | moves or merges the row of an id to its e-mail and reports whether it did; every key spells its e-mail afterwards, and one row per e-mail and the exact index survive if and only if no other row has that e-mail under another spelling |
| BanLedger.BanState.Prune | src/grok-manager/lib/autoban.go:865-892 | drops exactly the rows no live credential matches; changes nothing when the host list failed |
| BanLedger.BanState.Save | src/grok-manager/lib/autoban.go:541-575 | writes the unexpired rows when dirty, nothing otherwise |
| BanLedger.BanState.Load | src/grok-manager/lib/autoban.go:458-533 | leaves a table that is a possible compaction of the file, every key a spelling of its e-mail; one row per e-mail with an exact index if and only if the file spells no account in two ways, and keyed by normalised e-mails if and only if ids standing in for e-mails were saved trimmed |
| BanLedger.BanState.Compact | src/grok-manager/lib/autoban.go:473-517 | whatever order the file is visited in, each group is won by a row with the latest normalised reset |
| BanTable.NormalizeIdempotent | src/grok-manager/lib/autoban.go:82-90 | normalising again at a later time changes nothing |
| BanTable.UnindexScan | src/grok-manager/lib/autoban.go:199-210 | deleting a row after unindexing it keeps the index equal to the scan, with no empty entry |
| BanTable.ReindexScan | src/grok-manager/lib/autoban.go:187-197 | filing a row keeps the index equal to the scan if and only if no other row has its mailbox |
| BanTable.SetKeepsFiled | src/grok-manager/lib/autoban.go:92-185 | every report keeps one row per e-mail, under a key that spells it |
| BanTable.SetKeepsTable | src/grok-manager/lib/autoban.go:92-185 | a report keeps every row under its normalised e-mail if and only if an `@` id that stands in for a missing e-mail is lower-case |
| BanTable.SetTouchesOnly | src/grok-manager/lib/autoban.go:118-139 | a report leaves every other account alone unless its auth id is that account or, in place of an e-mail, another spelling of it |
| BanTable.AttachKeepsFiled | src/grok-manager/lib/autoban.go:685-738 | attaching an e-mail keeps one row per e-mail if and only if no other row has it under another spelling |
| BanTable.AttachKeepsTable | src/grok-manager/lib/autoban.go:685-738 | in a table keyed by normalised e-mails attaching one never creates a second row for it |
| BanTable.SnapshotIdempotent | src/grok-manager/lib/autoban.go:363-396 | at one moment a second snapshot returns the same rows and changes nothing |
| BanTable.FindsByEmail | src/grok-manager/lib/autoban.go:212-231 | a normalised e-mail that owns a row is always found there, by every lookup, whatever rows the index misses |
| BanLaws.FirstReportLaw | src/grok-manager/lib/autoban.go:92-182 | the first report about an account leaves its code, source, label and moment, the e-mail it names (an `@` id in place of none), the auth id it came under unless that is the key, its count or one, and its window, a 429 cut to two hours from now |
| BanLaws.LaterReportLaw | src/grok-manager/lib/autoban.go:140-182 | a later report counts one more and fills its blanks from the row; a row that ends later, neither side a 429 and no recheck, keeps window and first moment and takes over code, reason and source where given; otherwise the report stands |
| BanLaws.ReportDrops | src/grok-manager/lib/autoban.go:118-139 | of the other rows a report drops exactly the one kept under its auth id and those that have its e-mail as e-mail or, in any letter case, as key |
| BanLaws.ReportedIdFinds | src/grok-manager/lib/autoban.go:102-236 | the auth id a report came under leads to its row, kept under the e-mail, unless it is a key or e-mail of another |
| BanLaws.MoveTouches | src/grok-manager/lib/autoban.go:685-702 | a heal takes one key away, brings one in, and touches no other row; otherwise it changes nothing |
| BanLaws.MoveKeeps | src/grok-manager/lib/autoban.go:693-731 | moved to an e-mail without a row, a row keeps all its fields; its key becomes its auth id if it had none |
| BanLaws.MoveJoins | src/grok-manager/lib/autoban.go:704-728 | a merged row ends no earlier than either, has the larger count and the earlier known moment, keeps its own code, reason, source, auth id and label where it has them and takes them from the moved row where not |
| BanLaws.SnapshotShows | src/grok-manager/lib/autoban.go:363-396 | a snapshot shows exactly the rows that have not ended and every 429, field by field, that one cut to two hours from now |
| BanLaws.QuestionAnswers | src/grok-manager/lib/autoban.go:240-273 | a question is answered "isolated" exactly when the row found has not ended or is a 429; any other row found is dropped, and a release drops the row found |
| BanLaws.LookupOrder | src/grok-manager/lib/autoban.go:212-237 | with an exact index a lookup leads to the key, else the lower-cased key, else a row of the e-mail, else a row of the auth id, else nowhere |
| BanLaws.ReleasesLeave | src/grok-manager/lib/autoban.go:286-361 | which rows a release by e-mail, by code or by ids leaves |
| BanLaws.PruneKeeps | src/grok-manager/lib/autoban.go:826-862 | a row survives pruning exactly when its e-mail or key is a live e-mail, its key, auth id or label a live id in this or in lower case, or one of these the file name of either |
| BanLaws.LoadedGroups | src/grok-manager/lib/autoban.go:473-499 | an account is loaded exactly when the file has a row for it that has not ended or is a 429 with a window |
| BanLaws.LoadedRow | src/grok-manager/lib/autoban.go:473-522 | its row is one of those that end last, one with an e-mail if such a one ties, with its fields as saved and its blanks filled from its id; no row with an e-mail that ends then counted more |
| BanEvents.Perform | src/grok-manager/lib/autoban.go:92-533 | every call of the ledger object is a legal event of a run and leaves its maps as the event leaves the table; pruning without a host list is no event |
| BanEvents.HealMissing | src/grok-manager/lib/autoban.go:741-770 | the heal is a legal run; each row without an e-mail whose auth id or key the cache knows is gone and its address has a row, any other is as it was |
| BanAccounts.SetRefines | src/grok-manager/lib/autoban.go:92-185 | one report acts on its account as an abstract machine: count plus one, latest status, the new window if either side is a 429, else the longer one |
| BanAccounts.ReportsRefine | src/grok-manager/lib/autoban.go:92-185 | any sequence of reports about any accounts leaves each account as that machine says from its own reports alone, canonical or not, unless one strays to its row |
| BanAccounts.QuietLedger | src/grok-manager/lib/autoban.go:92-185 | in a run without 429s an account has a row if and only if it was reported; the row counts the reports, stores the maximum of all reported resets and the last code |
| BanRuns.RunSound | src/grok-manager/lib/autoban.go:92-396 | in every state any interleaving of locked sections can reach, from heals to any e-mail and restarts from any file, every row is under a spelling of its e-mail |
| BanRuns.StepFiled | src/grok-manager/lib/autoban.go:92-533 | of all events only a heal that lands beside another spelling of its e-mail, and a restart from a file that spells an account in two ways, leave an e-mail with two rows |
| BanRuns.OneRowPerEmail | src/grok-manager/lib/autoban.go:92-533 | all through a run every e-mail owns at most one row if and only if none of the heals and restarts on the way is such a one |
| BanRuns.CanonicalRun | src/grok-manager/lib/autoban.go:92-533 | after canonical reports and restarts from files with trimmed ids every row is under its normalised e-mail and every heal fits |
| BanRuns.HoldOverRuns | src/grok-manager/lib/autoban.go:92-259 | an address that is held stays held over every run whose events sustain the hold, and every question about it is answered "isolated": one induction for two-hour windows, rate limits and longer windows |
| BanRuns.IsolationOverRuns | src/grok-manager/lib/autoban.go:92-259 | once an account is held from a moment, every question about it in the next two hours is answered "isolated", whatever reports, snapshots, questions, heals, other releases and restarts from a file that still holds it interleave |
| BanRuns.FailureIsolates | src/grok-manager/lib/autoban.go:927-989 | a classified failure of an e-mail starts such a two-hour isolation at the moment it was classified |
| BanRuns.RestartIsolates | src/grok-manager/lib/autoban.go:458-575 | that isolation outlasts a restart from the file of any save made after the report, with anything that spares the account and reads no earlier clock in between |
| BanRuns.LongWindowIsolates | src/grok-manager/lib/autoban.go:961-989 | in a run without rate limits of the account a 401, 402 or 403 isolates for its whole window, a 402 for seven days, at every question |
| BanRuns.StickyOverRuns | src/grok-manager/lib/autoban.go:240-259 | while the latest report is a 429 the account stays isolated for ever, at any clock reading, until an explicit release |
| BanRuns.CapOverRuns | src/grok-manager/lib/autoban.go:71-90 | with a non-decreasing clock every stored 429 row always ends within two hours, and every row is in normal form, whatever is reported, looked up or healed |
| BanRuns.ReachableRoundTrip | src/grok-manager/lib/autoban.go:458-562 | what any run leaves survives a save and a later load row for row, except the rows that had expired, if and only if the surviving rows are under their normalised e-mails; after canonical reports they are |
| BanLimits.UpperCaseIdSplitsTheAccount | src/grok-manager/lib/autoban.go:99-101 | counterexample: an upper-case address as auth id, then a heal that does not fit, gives one e-mail two rows, and the live isolation is missed |
| BanLimits.BareNameIsHealedAway | src/grok-manager/lib/autoban.go:706-734 | every normalised name without `@` has a legal run that spares it and still ends its isolation: a heal moves its row away |
| BanLimits.IsolationLastsIff | src/grok-manager/lib/autoban.go:92-259 | a normalised name keeps its isolation over every run that spares it if and only if it is an address |
| BanFile.CompactionIsOrderIndependent | src/grok-manager/lib/autoban.go:473-517 | two loads of one file agree on the accounts and on every window, whatever the map order |
| BanFile.ContestCompacts | src/grok-manager/lib/autoban.go:473-517 | one more saved row, met by the best rows so far, leaves the best rows of the larger file |
| BanFile.LoadKeepsTable | src/grok-manager/lib/autoban.go:473-522 | a loaded ledger has one row per e-mail, under that e-mail, if and only if the eligible mail-less `@` ids were saved trimmed |
| BanFile.LoadKeepsFiled | src/grok-manager/lib/autoban.go:473-522 | a loaded ledger has one row per e-mail, under some spelling, if and only if no two eligible rows of the file stand for one account in different groups |
| BanFile.SaveLoadRoundTrip | src/grok-manager/lib/autoban.go:458-562 | saving at one time and loading later gives exactly the rows unexpired at the save that are unexpired or 429 at the load, every field unchanged, if and only if these are under their normalised e-mails |
| BanFile.LimitComesBackIff | src/grok-manager/lib/autoban.go:458-562 | a 429 row, in force for ever in memory, comes back from disk if and only if its window had not ended at the save |
| BanFile.LimitLostBySaving | src/grok-manager/lib/autoban.go:541-562 | counterexample: such a row in force and worth loading that no save writes, so that any load is empty |
| Policy.ClassifyByCode | src/grok-manager/lib/autoban.go:961-989 | exactly 401, 402, 403 and 429 isolate: a 401 for two hours if the vault has the e-mail and for a day if not, a 402 for seven days, a 403 for a day, a 429 for two hours, each with its reason, counted from the classification |
| Scheduler.IsBannedCandidate | src/grok-manager/lib/autoban.go:1058-1073 | an xai candidate that names a held account, or names none and is of it by the e-mail cache, is filtered; a kept one has no row left under its e-mail or id, although the questions themselves delete expired rows; a filtered one is backed by a row in force |
| Scheduler.HandleSchedulerPick | src/grok-manager/lib/autoban.go:1020-1056 | the answer is the id of no candidate that names an account held before the pick or is of it by the e-mail cache, nor is the choice handed back while one is on offer; unhandled if and only if nothing was filtered; all filtered gives an empty id; otherwise the first kept candidate of maximal priority; the questions asked on the way are a legal run of the ledger |
| Scheduler.NoPickReturnsHeldAccount | src/grok-manager/lib/autoban.go:1020-1073 | over any run no pick made while a hold lasts (two hours after a failure, for ever after a 429, the whole window of another code) returns a candidate that resolves to the held account, or hands the choice back to the host while one is on offer |
| Scheduler.PickInRun | src/grok-manager/lib/autoban.go:1020-1073 | the questions of one pick, asked where any run has led, extend that run |
| Scheduler.PickKeepsAway | src/grok-manager/lib/autoban.go:1020-1073 | so what the pick method answers at the end of any run keeps away from every account held there |
| ScanSync.HealthyIff | src/grok-manager/lib/autoban.go:1132-1151 | a result is healthy exactly when its action is OK, its label is healthy, or its code is in 200 to 299; the label a blank one would be given adds nothing |
| ScanSync.NoteScanBan | src/grok-manager/lib/autoban.go:1076-1087 | a result with code 401, 402, 403 or 429 is filed under the first of auth id, index, name and file it has, any other changes nothing |
| ScanSync.ScanEntryIs | src/grok-manager/lib/autoban.go:1076-1087 | what is filed has the code, e-mail and name of the result, source scan, and the time its code earns from now on |
| ScanSync.FileBaseIs | src/grok-manager/lib/autoban.go:1260-1270 | the base of a path is what follows its last slash of either kind |
| ScanSync.HandleUsage | src/grok-manager/lib/autoban.go:927-959 | a failed xai request with an isolated code files a report with its code, the e-mail it names or the cache gives, its auth id and tag and the time the code earns, and holds its account for at least two hours, a 429 until rechecked; any other record changes nothing |
| ScanSync.ReleaseHealthy | src/grok-manager/lib/autoban.go:1179-1193 | afterwards no row has the e-mail of a healthy result and no identity of it is a key; no account apart from them is touched |
| ScanSync.SyncScan | src/grok-manager/lib/autoban.go:1157-1219 | every result is counted once, as banned if it is neither OK by action, label or code and the mode picks it, as unbanned if it is OK and the ledger changed, else as skipped, and the three counters are these numbers; as one batch the findings make of every account, no other finding naming it, what its own say, and rows none reaches stay |
| ScanSync.SyncByResult | src/grok-manager/lib/autoban.go:1121-1219 | an account with one result of its own: one that is OK by action, label or code releases it, if such are to be; a failure with an isolated code that the mode picks leaves it with that code, on top of what was known; any other leaves its very row |
| Reconcile.OneFindingSettles | src/grok-manager/lib/autoban.go:1157-1219 | in a batch with one finding about an account that finding alone decides what becomes of it |
| Reconcile.WriteEffect | src/grok-manager/lib/autoban.go:1157-1219 | a report, possibly after releases, acts on its own account as the abstract machine says and reaches no row but those that answer to its e-mail or names |
| Reconcile.UnnamedStays | src/grok-manager/lib/autoban.go:1157-1219 | an account no finding is about, or names, keeps its very row |
| Reconcile.BatchesCompose | src/grok-manager/lib/autoban.go:1157-1219 | one batch of findings after another is one batch, although each act may change the auth ids accounts are known by |
| RecheckWork.CollectSelected | src/grok-manager/lib/autoban.go:1953-1970 | the work list is exactly that of the selected xai credentials, no account twice |
| RecheckWork.CollectRows | src/grok-manager/lib/autoban.go:1971-2025 | every target row is listed for probing if it has a credential file and released otherwise, only such rows are listed, the details name exactly the rows without a file, each once, and the ledger is what these releases made of the snapshot |
| RecheckWork.XaiFiles | src/grok-manager/lib/runtime.go:2163-2176 | an xai credential is one whose provider or kind is xai, x-ai or grok, or whose file name starts with `xai-` or `xai.` |
| RecheckWork.SelectionPicks | src/grok-manager/lib/autoban.go:1827-1850 | a selection picks the xai credentials with an id, name, path, e-mail or label among the wanted ones, in this or in lower case |
| RecheckWork.WantKeys | src/grok-manager/lib/autoban.go:1790-1805 | a name is wanted exactly when it is one of the ids asked for, whatever the letter case of either |
| RecheckWork.DueRows | src/grok-manager/lib/autoban.go:1971-1990 | due are the rows of the asked code, or the 429 rows, unless asked for by hand only those that have ended |
| RecheckWork.FilesOfRow | src/grok-manager/lib/autoban.go:1929-1945 | a row has a credential file exactly when an xai one has its e-mail or goes by its key or auth id, in this or in lower case |
| RecheckWork.ItemNames | src/grok-manager/lib/autoban.go:1960-2022 | a work item is called by its normalised e-mail, else by its name or id |
| RecheckWork.BaseShows | src/grok-manager/lib/autoban.go:1953-1975 | a selection looks at the ledger as it is; otherwise the rows that have not ended and every 429 are looked at |
| RecheckWork.DropSettles | src/grok-manager/lib/autoban.go:2001-2012 | releasing a row without a credential file removes it and its e-mail, and touches no account it does not name |
| Recheck.ProcessOutcome | src/grok-manager/lib/autoban.go:2101-2204 | a probe without an answer, or with action ERROR, leaves the ledger as it was and is skipped; a 429 is still one and a 401, 402 or 403 reclassifies, either leaving as the only row of the account a fresh one with count 1, the time of its code and what the probe says; any other answer releases; the row it was listed for is gone unless it is the account's own; accounts it does not name keep their rows |
| Recheck.ProcessAll | src/grok-manager/lib/autoban.go:2101-2207 | outcomes in any delivery order are each listed once, each of the four counters is the number of probes with such an answer, and the ledger is what these outcomes, as one batch, make of it |
| Recheck.RecheckPass | src/grok-manager/lib/autoban.go:1882-2207 | skipped counts the probes without an answer, still-429 those that answered 429, reclassified those with 401, 402 or 403, unbanned the others and the rows dropped for a missing file, and together they are the details; the ledger is what the drops and outcomes, as one batch, made of the ledger before the pass; a failed host list changes nothing |
| Recheck.PassSettles | src/grok-manager/lib/autoban.go:1971-2205 | over a whole pass an account with one outcome of its own keeps its very row if its probe had no answer, has a row with the time of the code and count 1 if that was 401, 402, 403 or 429, and has none otherwise |
| Recheck.PoolDelivers | src/grok-manager/lib/autoban.go:2069-2103 | the pass's pool hands over every work item exactly once |
| ScanPool.StepInv | src/grok-manager/lib/runtime.go:683-746 | every step of feeder, workers, collector and canceller keeps each target in exactly one place and `done` equal to the results sent |
| ScanPool.ProbedAtMostOnce | src/grok-manager/lib/runtime.go:683-746 | no target is probed twice in any interleaving |
| ScanPool.FinishedPool | src/grok-manager/lib/runtime.go:683-746 | when the result channel has closed, `done` is the number of collected results, a permutation of the targets if never cancelled and without repetition otherwise |
| ScanPool.StepProgress | src/grok-manager/lib/runtime.go:683-746 | every step strictly decreases a bound, so every run ends |
| ScanPool.NeverStuck | src/grok-manager/lib/runtime.go:683-746 | until the channel has closed and is drained some step other than a cancellation is enabled |
| ScanPool.CancelStops | src/grok-manager/lib/runtime.go:683-746 | once cancelled a pool probes no target but those already being probed |
| ImportPool.StepInv | src/grok-manager/lib/sso.go:560-673 | every step of producer, workers and canceller conserves the items and the balance of counters and slots |
| ImportPool.CountersTrack | src/grok-manager/lib/sso.go:560-673 | at every moment done <= filled slots <= ok + fail <= done + workers, and skip <= ok |
| ImportPool.SlotWrittenOnce | src/grok-manager/lib/sso.go:560-673 | a filled slot is never written again and slot i carries index i + 1 |
| ImportPool.FinishedImport | src/grok-manager/lib/sso.go:560-673 | after the final wait done, filled slots and ok + fail agree; without a cancellation they equal the item count |
| ImportPool.StepProgress | src/grok-manager/lib/sso.go:560-673 | every run ends, cancelled or not |
| ImportPool.NeverStuck | src/grok-manager/lib/sso.go:560-673 | a cancellation never deadlocks: until the import has finished some other step is enabled, and one that does not wait for the clock |
| ImportOutcomes.CountersTell | src/grok-manager/lib/sso.go:560-673 | over any run ok counts the items that converted or were skipped, fail those that failed, skip the skips, done the items done |
| ImportOutcomes.SlotsTell | src/grok-manager/lib/sso.go:560-673 | in every reachable state a filled slot tells the outcome of its own item |
| ImportOutcomes.WorkersAsked | src/grok-manager/lib/sso.go:545-566 | as many workers as asked for, at least one and no more than items, and twice as many places in the queue |
| ImportOutcomes.CancelStops | src/grok-manager/lib/sso.go:568-575 | once cancelled an import judges no item but those already being worked on |
| ImportOutcomes.CancelStopsLaunching | src/grok-manager/lib/sso.go:646-672 | once cancelled an import launches no item but the one it is offering |
| ImportOutcomes.LaunchesAreSpaced | src/grok-manager/lib/sso.go:646-672 | a staggered import waits between any two launches and, unless cancelled, neither before the first nor after the last; any other does not wait |
| SsoList.SplitDashSep | src/grok-manager/lib/sso.go:466-500 | the byte loop with its dash counter computes the split at maximal runs of three or more dashes, a trailing empty part dropped |
| SsoList.WeaveBack | src/grok-manager/lib/sso.go:466-500 | putting the removed runs back between the pieces gives the line; every run had at least three dashes |
| SsoList.PartsHaveNoTriple | src/grok-manager/lib/sso.go:466-500 | no part contains three dashes in a row |
| SsoList.RunsAreMaximal | src/grok-manager/lib/sso.go:466-500 | no piece beside a removed run has a dash on that side |
| SsoList.ReadOneLine | src/grok-manager/lib/sso.go:377-462 | the cookie and e-mail of one line, by its format: comment, dashed, piped, tabbed, comma, words |
| SsoList.ParseSSOItems | src/grok-manager/lib/sso.go:330-464 | reads cookies, then lines, keeping the first item of each cookie; no cookie is listed twice |
| SsoLaws.AdmitIff | src/grok-manager/lib/sso.go:333-372 | a cookie is admitted as it is unless blank, or an e-mail: with an `@`, not like a token, and without a dot or shorter than 80 |
| SsoLaws.PrefixIsDropped | src/grok-manager/lib/sso.go:339-342 | a leading `sso=`, in any letter case, changes nothing |
| SsoLaws.TangledReads | src/grok-manager/lib/sso.go:343-357 | a pair given as one cookie is taken apart on the side that is like a token, the right one first; the other side becomes the e-mail if it has an `@` and none is given |
| SsoLaws.TokenLikeIff | src/grok-manager/lib/sso.go:502-512 | three dotted parts are like a token exactly when the first two are longer than 10 |
| SsoLaws.TokenDots | src/grok-manager/lib/sso.go:502-512 | a text that starts with `eyJ` is like a token exactly when it has two dots or more; any other has exactly two |
| SsoLaws.TrailingRunIsDropped | src/grok-manager/lib/sso.go:466-500 | three or more dashes at the end of a line add no part |
| SsoLaws.ScanPicks | src/grok-manager/lib/sso.go:386-407 | of the parts around dashes the cookie is the first that is like a token and the e-mail the first other one with an `@` |
| SsoLaws.LongLastIff | src/grok-manager/lib/sso.go:407-416 | after an e-mail a last part that is like no token is a cookie exactly when it is longer than 40; otherwise the line reads as nothing |
| SsoLaws.BrokenCookieReads | src/grok-manager/lib/sso.go:447-453 | a cookie broken in two by white space is put together again before its e-mail |
| SsoLaws.MiddleWordIsIgnored | src/grok-manager/lib/sso.go:448-460 | words between a leading e-mail and a closing cookie are passed over |
| SsoLaws.ListReads | src/grok-manager/lib/sso.go:374-463 | the list is the items there were, then those of the lines that are the first to bring their cookie |
| SsoFormats.FormatsRead | src/grok-manager/lib/sso.go:384-462 | the documented separators all read an e-mail and a token: dashes, pipe, tab and blank, the last three in either order, and the comma with the e-mail first |
| SsoFormats.SwitchOn | src/grok-manager/lib/sso.go:417-446 | which side of a pipe, a tab or a comma is the cookie: by likeness to a token and by the `@` |
| SsoFormats.CookieFirstReads | src/grok-manager/lib/sso.go:386-416 | `sso----email` reads as the cookie without the dashes at its end and the e-mail without those at its start |
| SsoFormats.CookieFirstReadsIff | src/grok-manager/lib/sso.go:386-416 | so it reads as its pair if and only if no dash of either touches the separator |
| SsoFormats.PasswordIgnored | src/grok-manager/lib/sso.go:387-416 | `email----password----sso` reads as the pair, for any password between that is no token and has no `@`, no `---` and no dash at its ends |
| SsoFormats.CommaAfterTokenIsLost | src/grok-manager/lib/sso.go:388-446 | the documented `sso,email` is never cut for an `eyJ` token: the whole line becomes the cookie and the e-mail is lost |
| SsoFormats.CommaFormatIff | src/grok-manager/lib/sso.go:440-446 | a token-like cookie before a comma is cut off if and only if it does not start with `eyJ` |
| SsoExport.ExportVault | src/grok-manager/lib/extras.go:339-393 | prints the sorted lines of exactly the kept entries that have a cookie, and their number |
| SsoExport.ExportPrints | src/grok-manager/lib/extras.go:358-387 | a pair is printed if and only if some entry with a cookie trims to it and is what the filter asks for: failed with an error, last answered 401, not ok, or listed; any other filter asks for nothing |
| SsoExport.ExportGrows | src/grok-manager/lib/extras.go:358-387 | each entry that has a cookie and is what the filter asks for adds its pair, once; any other adds nothing |
| SsoExport.LineRoundTripIff | src/grok-manager/lib/extras.go:383-387 | a printed e-mail and token read back as themselves if and only if the e-mail is plain: no `---`, no trailing dash, no leading `#` or byte order mark, not token-like |
| SsoExport.LongMailIsLost | src/grok-manager/lib/sso.go:502-512 | counterexample: `christopher.montgomery@x.com` passes for a token and does not read back |
| SsoExport.VaultRoundTripIff | src/grok-manager/lib/extras.go:358-393 | parsing an export gives back exactly its pairs in sorted-line order if and only if every e-mail is plain, for distinct tokens |
| SsoExport.ExportRoundTripIff | src/grok-manager/lib/extras.go:358-393 | the same for lines in any order |
| Sorting.SortSorts | src/grok-manager/lib/extras.go:389 | sorting gives an ordered permutation |
| Sorting.SortIsStable | src/grok-manager/lib/vault.go:304-310 | elements none of which comes before another stay in the order they had |
| Sorting.BeforeMeans | src/grok-manager/lib/extras.go:389 | the smaller character at the first difference comes first, and a text before its continuations |
| SsoPreview.PreviewSSOList | src/grok-manager/lib/extras.go:55-139 | the line-by-line loop computes every figure of the preview as counts over the lines and their items |
| SsoPreview.FiguresAddUp | src/grok-manager/lib/extras.go:55-139 | for every text: lines = blank + invalid + parsed + lines blank only behind a byte order mark, and parsed = unique e-mails + repeated e-mails + e-mail-less |
| SsoPreview.BlankIff | src/grok-manager/lib/extras.go:64-79 | a line counts as blank when nothing or a `#` comment is left without white space |
| SsoPreview.UnreadableIff | src/grok-manager/lib/extras.go:77-95 | a line counts as invalid when something else is left of it from which an import of its own takes nothing; otherwise it is held as the item that import takes |
| SsoPreview.PreviewForecasts | src/grok-manager/lib/extras.go:55-139 | where preview and import read every line alike, valid + repeated cookies = parsed; the import after dropping repeats has at most `willImport` accounts, exactly as many if and only if no repeated cookie names another account, so in particular without repeats |
| SsoPreview.ImportKeepsFirst | src/grok-manager/lib/extras.go:55-139 | the import keeps, of the lines the preview parses, the first item of each cookie, carriage returns or not, where both read every line alike |
| SsoPreview.OneMarkReads | src/grok-manager/lib/extras.go:77-85 | both read a line alike unless it still starts with a byte order mark after one was stripped |
| SsoPreview.SecondMarkDecides | src/grok-manager/lib/extras.go:77-91 | at a line that does, followed by what it was stripped to, the preview's figures fit the import if and only if the import reads the cookie from it that the preview reads |
| SsoPreview.SecondMarkMiscounts | src/grok-manager/lib/extras.go:77-91 | counterexample: a token behind two marks is such a line with two cookies, and the preview counts a repeated cookie that the import keeps |
| SsoPreview.BlankBehindMarkCounts | src/grok-manager/lib/extras.go:66-83 | counterexample: a text of one byte order mark is one line that counts neither as blank nor as invalid nor as parsed |
| SsoPreview.DedupeItems | src/grok-manager/lib/extras.go:147-167 | one item per account in first-seen order, and kept + dropped = listed |
| SsoPreview.DedupeKeepsLast | src/grok-manager/lib/extras.go:147-167 | the kept item is the last one listed for its account, no account is lost and none occurs twice |
| SsoPreview.SameAccountIff | src/grok-manager/lib/extras.go:147-155 | two items are one account with one normalised e-mail or, without e-mails, one cookie, and when one reads as the e-mail `sso:` and the cookie of the other |
| SsoPreview.FirstsInOrder | src/grok-manager/lib/extras.go:147-167 | the accounts stand in the order in which they are first listed |
| Vault.VaultFile.Upsert | src/grok-manager/lib/vault.go:154-212 | merging a list leaves the saved order of the step-by-step merge; an empty list changes nothing |
| Vault.MergeKeeps | src/grok-manager/lib/vault.go:173-210 | despite stale index entries every e-mailed entry's own e-mail leads back to it; at most one entry is added and no indexed position ever changes |
| Vault.MergeStores | src/grok-manager/lib/vault.go:189-200 | a merged cookie is stored under its e-mail, in one entry that keeps its import history; all others stay |
| Vault.MergeWrites | src/grok-manager/lib/vault.go:173-210 | an item without a cookie writes nothing; any other writes the one entry its e-mail, else its cookie, is indexed at, else a new one: cookie, time and, if given, e-mail, the rest kept, and indexed under them |
| Vault.LoneCookie | src/grok-manager/lib/vault.go:173-210 | a cookie without an e-mail renews the last entry that has it, or gets an entry of its own |
| Vault.MergeFinds | src/grok-manager/lib/vault.go:173-210 | after a merge an e-mail has an entry if and only if the item brings it, or it had one the item does not take over |
| Vault.RunKeeps | src/grok-manager/lib/vault.go:154-212 | over any list e-mails stay unique whatever their case, the vault never shrinks, and the index knows exactly the e-mails of vault and list |
| Vault.NoneTakenIff | src/grok-manager/lib/vault.go:173-200 | an item takes over an entry with another e-mail, at some point of the run, if and only if some item is the first to bring its e-mail and has a cookie that an earlier item, or the last entry with it, pairs with an e-mail |
| Vault.AllFoundIff | src/grok-manager/lib/vault.go:154-212 | every e-mail of vault and list is found afterwards if and only if there is no such item |
| Vault.SharedCookieLosesMail | src/grok-manager/lib/vault.go:178-200 | counterexample: two accounts listed with one cookie, and the first e-mail is gone |
| Vault.UpsertPromise | src/grok-manager/lib/vault.go:154-212 | the same promises of the file as saved, sorted by e-mail and cookie |
| Vault.EntryOrders | src/grok-manager/lib/vault.go:304-310 | the saved order is a strict weak order |
| Vault.SavedOrder | src/grok-manager/lib/vault.go:304-310 | saved entries stand by lower-cased e-mail, then by cookie, in code-point order |
| Paginate.PagesPartition | src/grok-manager/lib/paginate.go:56-84 | the pages concatenate to the list, all but the last hold as many as asked for, or 80, and any requested page is clamped into range and is that page |
| Text.NormFacts | src/grok-manager/lib/autoban.go:61-69 | trimming and lower-casing are idempotent, commute, and keep every `@` |
| Text.LettersLower | src/grok-manager/lib/autoban.go:61-69 | lower-casing turns each of the 26 capitals into its small letter and leaves every other character |
| Text.WhiteSpaceIs | src/grok-manager/lib/autoban.go:61-69 | what trimming removes is the white space of Unicode |

## Left out

- Letter case is ASCII only, and lengths count characters where Go counts bytes; white space is Unicode white space.
- The mutex itself, the asynchronous save that writes the file after unlocking, the file format and path: a save
  yields the rows to write, a load takes them, and disk and memory are never claimed to agree.
- `hasExpired429`, `failCountForStatus` and `count`: reads of the table without consequences.
- BanLedger.BanState.Load: the fail count a group ends up with depends on the map order in the source; it belongs to
  some member and is no smaller than the winner's and those of the members that tie with it by e-mail
  (`BanLaws.LoadedRow`), and nothing more is stated.
- BanLedger.BanState.Lookup: which of the rows of one e-mail an index that misses some leads to is left open; the runs
  allow every such answer.
- BanRuns.IsolationOverRuns: is about addresses with an `@` and lists its exceptions as events that do not spare the
  account (clears, prune of a dead credential, a report filed elsewhere whose auth id is the address or stands in for
  an e-mail as another spelling of it) or fall out of its window (restarts from a file without the account). The
  manual import of rows (lines 2648 and after of `autoban.go`) only files reports: `RunSound`, `OneRowPerEmail` and
  `CapOverRuns` cover it, the isolation theorems as far as an imported row meets what they ask of reports.
- BanRuns.LongWindowIsolates: between the failure and the question there is no restart; `RestartIsolates` covers
  restarts for the two hours every code has.
- Scheduler.HandleSchedulerPick: takes the lock once for each question in the source and is proved without other
  sections in between; `Scheduler.NoPickReturnsHeldAccount` covers the interleaving of a pick's questions with
  everything else.
- ScanSync.SyncScan: takes the lock many times in the source and is proved without other sections in between.
- Recheck.RecheckPass: likewise, from collecting the work list to the last outcome.
- Recheck.ProcessAll: likewise, from the first outcome to the last.
- BanRuns.StickyOverRuns: ends, as the code does, when a later report for the account carries another code, or at a
  restart, which loses a 429 whose window had ended (`LimitComesBackIff`).
- SsoPreview.PreviewForecasts: asks that preview and import read each line alike; only a line that still starts with a
  byte order mark after one was stripped may fail it, where the diagnostic loop strips two marks and the import one.
- SsoExport.VaultRoundTripIff: is about single-line e-mails that contain an `@` and about distinct tokens in compact
  serialization (section 7.1 of RFC 7515, with further dots allowed) without `---`.
- Vault.VaultFile.Upsert: of an entry only the fields the merge and the export filters read; convert and skip counters
  and import dates are carried along unseen.
- The alternate field names of usage and candidate records and the host's e-mail cache: a resolved value is an input.
- Host authentication listing, probes, conversions and clocks: inputs, with the failure of the host list a case.
- Recheck targets are visited in an arbitrary order where the source sorts them, and the file lookup maps are
  predicates over the credential list; progress messages, hit memory and history of the pass are not modelled.
- The scan's incremental saves, sorting of results and job messages; the import's log, pre-check and vault marking.
- Sample lines of the preview; query parsing of pages (only the slicing is modelled). Machine overflow cannot occur in
  slicing and is not modelled.
- HTTP, OAuth, cookies, proxies, schedules, configuration, the web pages and the plugin boundary.
