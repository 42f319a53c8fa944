# Load tests, test token and genesis of 2testchain: a Dafny model

The project models the parts of the repository that decide something themselves, and proves properties of them for
every input and every run.

- **Confirmation monitor** (`BlockClassifier`, `TxMonitor`, `MonitorRuns`, `MonitorProgress`, `MonitorLosses`,
  `MonitorSubscription`). Head callbacks of the transfer load test run interleaved over shared variables.
  `TxMonitor.Monitor` holds these variables and has one method per atomic step, cut at each `await`; each method is
  proved against the step relation `Next`. A run is any sequence of enabled steps: heads in any order, lookups that
  fail, blocks that cannot be read, the subscription coming up early or late, the timeout.
- **Transfer load** (`SendLog`, `TransferLoad`, `LoadReport`). Parallel sends write into preallocated slots in any
  order of completion; a clock-paced loop runs slots; a balance check comes first. Replies, completion orders and
  delays are parameters. Delays are natural numbers: the clock never runs backwards and no sleep is cut short.
- **EVM load** (`EvmLoad`). A sequential sender with a fixed number of rounds, and a monitor that waits for one batch
  after the other, the waits inside a batch completing in any order.
- **Token** (`TokenLedger`). The ledger of the contract that the deployment script ships as bytecode, read off the
  instructions: the constructor, `transfer`, `transferFrom`, `mint`, the internal transfer with its second balance
  check, and the checked additions and subtraction. `Exec` is a whole call, rolled back if it reverts.
- **Genesis** (`Genesis`). The in-place endowment loop, stakers with random nominations, and the derived lists.
- **Voter bags and mortality** (`VoterBags`, `Mortality`). The table of 200 thresholds, and the period computation.

## Results that contradict expectations

- The monitor uses 0 as "not initialised" for its cursor. If the first head is number 5 the cursor gets the value 0
  and the next callback starts over. `MonitorRuns.CoverageExact` shows that number 5 is the only such first head. If
  the first callback is aborted and head `n` follows, the transactions of all blocks below `n - 5` stay pending over
  every later run without older heads, and no callback ever delivers a result (`MonitorLosses.HeadFiveLosesForGood`).
- One error while reading a block has the same effect for that block, whatever the first head: the error is swallowed
  and the cursor passes the block (`MonitorLosses.SwallowedErrorLosesForGood`). A hash is decided exactly if its block
  has been read (`MonitorLosses.DecidedExact`).
- Transactions that were included more than five blocks before the first head the monitor sees are never found, and
  then only the timer delivers a result (`MonitorLosses.EarlierBlocksAreNeverRead`). As monitoring starts after sending,
  a long sending phase can do that. `MonitorLosses.DecidableExact` says in which states a hash can still be decided.
- If the first head is number 4 or lower, the look-back of five blocks starts below block 0. As no node has such a
  block, every callback aborts at its first lookup; nothing is ever decided, and only the timer delivers a result
  (`MonitorRuns.ConfirmationPossibleExact`).
- A result delivered before the subscription came up leaves the subscription open. It is closed by the timer or by the
  first callback that ends after the subscription came up (`MonitorSubscription.EarlyResultClosedExact`).
- A nominator can be given an empty list of nominations (`Genesis.SomeDrawIsEmpty`), and is always given one exactly if
  there is a single authority (`Genesis.AlwaysEmptyExact`). Without authorities but with nominators the remainder by
  their number panics (`Genesis.TestnetGenesis`).
- `transferFrom` of the token serves the holder only; over any run what leaves an account is what its own calls gave
  away (`TokenLedger.OutflowIsOwnPayments`). The method of that name in EIP-20, section "Methods", is meant for third
  parties with an allowance; the model follows the code.
- `test/evm_contract_tps_test.js:446` counts the transfer amount in units of 10^18 towards the required balance,
  while `:340-343` sends it in base units and without native value. So whenever anything is to be transferred, a
  balance that covers all gas is refused (`EvmLoad.CheckOverasksExact`, `EvmLoad.RefusedThoughSufficient`).

## Model

| member | source | states |
|---|---|---|
| BlockClassifier.BuildEventIndex | test/transfer_tps_test.js:130-141 | For every extrinsic index the mutable index yields exactly the events recorded under that extrinsic's phase, in recording order; an index is present iff some event is recorded for it |
| BlockClassifier.EventsOfMember | test/transfer_tps_test.js:133-141 | An event is among those of extrinsic i iff a record with phase ApplyExtrinsic(i) carries it |
| BlockClassifier.EventsOfExact | test/transfer_tps_test.js:133-141 | The events of an extrinsic are the order-preserving subsequence of the records with its phase: no event is lost, invented, repeated or reordered |
| BlockClassifier.ScanForFailure | test/transfer_tps_test.js:150-158 | The early-exit loop reports success iff no failure event is among the events |
| TxMonitor.Monitor.constructor | test/transfer_tps_test.js:64-71 | Exactly the submitted hashes are pending, a repeated hash with its last record; nothing else happened yet |
| TxMonitor.ByHashIsLast | test/transfer_tps_test.js:70 | In the initial map every hash leads to the last of the records that have it |
| TxMonitor.Monitor.NewHead | test/transfer_tps_test.js:76-85 | The cursor is initialised from the head iff it is 0, and the callback waits for its first block or is done |
| TxMonitor.Monitor.GotHash | test/transfer_tps_test.js:86-87 | A block hash lets this callback go on and changes nothing shared |
| TxMonitor.Monitor.AbortOnHashError | test/transfer_tps_test.js:106-108 | A failed hash lookup ends the callback and leaves the cursor and all sets alone |
| TxMonitor.Monitor.GotBody | test/transfer_tps_test.js:128-129 | The extrinsics of the block are kept until its events arrive; nothing shared changes |
| TxMonitor.Monitor.SkipFailedBlock | test/transfer_tps_test.js:168-170 | An error while reading a block is swallowed and the scan moves to the next number |
| TxMonitor.Monitor.GotEvents | test/transfer_tps_test.js:130-167 | Atomically, exactly the pending hashes of the block leave the pending set, each into failed or successful as `MonitorRuns.VerdictIsRecorded` says |
| TxMonitor.Monitor.ClassifyExtrinsics | test/transfer_tps_test.js:144-167 | The loop over all extrinsics decides each pending hash once, by its first position in the block |
| TxMonitor.VerdictsStep | test/transfer_tps_test.js:144-166 | One more extrinsic decides its own hash if that was still undecided, and no other |
| TxMonitor.Monitor.EndScan | test/transfer_tps_test.js:91-105 | The cursor moves behind the head; with nothing pending the promise is resolved and, if possible, the subscription closed |
| TxMonitor.Monitor.SubscriptionReady | test/transfer_tps_test.js:109-112 | The subscription handle is stored and the timer set |
| TxMonitor.Monitor.TimerFired | test/transfer_tps_test.js:112-120 | The subscription is closed and the promise resolved unless it already was |
| MonitorRuns.VerdictIsRecorded | test/transfer_tps_test.js:130-167 | When the events of a block arrive, a hash that was pending and first stands at position i fails iff ExtrinsicFailed is recorded for the phase ApplyExtrinsic(i), and succeeds otherwise; a hash the block does not list keeps its place |
| MonitorRuns.AbortedCallbackIsGone | test/transfer_tps_test.js:106-108 | After a failed lookup the callback is no longer in flight, and nothing else has changed |
| MonitorRuns.VerdictsAreSound | test/transfer_tps_test.js:62-171 | In every reachable state pending, successful and failed partition the submitted hashes; a failed hash stands in a block read at a position for which ExtrinsicFailed is recorded, a successful one at a position for which it is not; no hash of a block read is pending |
| MonitorRuns.HistoryExact | test/transfer_tps_test.js:85-88 | Over any run the blocks noted as read, given up on and processed are exactly those whose events arrived, with the extrinsics and records that arrived, those that failed, and both together |
| MonitorRuns.RunExtends | test/transfer_tps_test.js:148-166 | Over any run verdicts, history and the resolution only grow, and pending only shrinks |
| MonitorRuns.CallbackResolutionIsFinal | test/transfer_tps_test.js:99-105 | A result delivered by a callback is complete, its two sizes add up to the number of different hashes, and no later step changes it |
| MonitorSubscription.TimerClosesSubscription | test/transfer_tps_test.js:99-121 | After the timer a result is delivered and the subscription closed; it is never closed without a result |
| MonitorSubscription.TimerExact | test/transfer_tps_test.js:109-120 | The subscription is up iff it has come up in the run; the timer is set exactly from then until the one time that it fires |
| MonitorSubscription.ClosedExact | test/transfer_tps_test.js:99-121 | With nothing pending, a run closes the subscription iff in it the timer fires or a callback ends while the subscription is up |
| MonitorSubscription.EarlyResultClosedExact | test/transfer_tps_test.js:99-121 | A result delivered before the subscription came up leaves it open, and a later run closes it iff in it the timer fires or a callback ends after the subscription came up |
| MonitorSubscription.EarlyResultIsReachable | test/transfer_tps_test.js:75-105 | Whenever the blocks that the first callback scans include all submitted hashes, it can deliver the complete result before the subscription came up, which then stays open |
| MonitorSubscription.CallbackClosesBeforeTimer | test/transfer_tps_test.js:100-103 | After an early result a callback can close the subscription while the timer is still set |
| MonitorRuns.HeadFiveLosesBlocks | test/transfer_tps_test.js:80-82 | A run with first head 5 whose cursor passes blocks that nobody processed |
| MonitorRuns.CoverageExact | test/transfer_tps_test.js:71-108 | Under every interleaving, late and aborted callbacks included, every block from the first scan base up to the cursor has been processed, iff the first head is not number 5 |
| MonitorRuns.BelowCursorIsDecided | test/transfer_tps_test.js:85-91 | Over a fixed chain, a submitted hash in a block below the cursor has its verdict, unless that block was given up on after an error and never read |
| MonitorRuns.VerdictsAgree | test/transfer_tps_test.js:144-167 | Over a chain that has no submitted extrinsic in two blocks, no two runs give the same hash opposite verdicts |
| MonitorRuns.ResultIsScheduleIndependent | test/transfer_tps_test.js:75-108 | Over such a chain all complete runs deliver the same two sets |
| MonitorRuns.ConfirmationPossibleExact | test/transfer_tps_test.js:80-87 | If no block has a negative number: some run confirms a transaction iff the first head is number 5 or higher; all runs end without any verdict, cursor movement or result from a callback iff it is lower |
| MonitorProgress.CallbackRunsToEnd | test/transfer_tps_test.js:75-105 | From any state, a callback whose hash lookups are answered can run to its end; it decides exactly the pending hashes of the blocks it can read, leaves the cursor one behind its head, and the promise is resolved if nothing is pending |
| MonitorLosses.DecidedExact | test/transfer_tps_test.js:126-171 | Over a fixed chain with no submitted extrinsic in two blocks, a submitted hash has its verdict iff its block has been read |
| MonitorLosses.PassedBlockSealsFate | test/transfer_tps_test.js:71-108 | Once cursor and scans have passed a block, over every later run without older heads its hashes stay pending iff it was not read by then, and then no callback delivers a result |
| MonitorLosses.HeadFiveLosesForGood | test/transfer_tps_test.js:80-85 | With first head 5, an aborted callback and next head n, the hashes of blocks below n - 5 stay pending over every later run without older heads |
| MonitorLosses.SwallowedErrorLosesForGood | test/transfer_tps_test.js:168-170 | If the first callback cannot read one block, its hashes stay pending over every later run without older heads, and no callback delivers a result |
| MonitorLosses.EarlierBlocksAreNeverRead | test/transfer_tps_test.js:80-85 | With first head n, hashes in blocks below n - 5 stay pending over every run without older heads, and no callback delivers a result |
| MonitorLosses.DecidableExact | test/transfer_tps_test.js:71-108 | In every reachable state over a fixed chain some later run without older heads decides a hash, or it is decided already, iff its block has been read or the cursor or some callback in flight has not passed it |
| SendLog.DeliveredExact | test/transfer_tps_test.js:39-43 | A slot logs a transaction iff for some i its send was answered with the hash and timestamp of the record and its nonce is startNonce + i |
| SendLog.LogIncreases | test/transfer_tps_test.js:230-248 | Over all slots nonces grow strictly, none is reused, all lie in the window of one block of nonces per slot |
| SendLog.LogExact | test/transfer_tps_test.js:247-248 | The whole log holds a transaction iff send i of slot k was answered with its hash and timestamp and its nonce is startNonce + k * perSlot + i |
| TransferLoad.SendTransactionsInTimeSlot | test/transfer_tps_test.js:19-59 | For every completion order and failure pattern the filtered array holds the accepted sends in nonce order; a slot that settles within a second ends with that second and the oversleep, a later one does not sleep |
| TransferLoad.SendUntil | test/transfer_tps_test.js:227-252 | The loop runs slots until its first clock reading at or after the end time, and logs all of them |
| TransferLoad.RunLoad | test/transfer_tps_test.js:207-252 | The test is refused iff debits of at most amount plus fee for the estimated number of transactions can exceed the free balance, which is iff the balance is below amount and fee for all of them; otherwise the loop runs |
| TransferLoad.BudgetIsSharp | test/transfer_tps_test.js:207-223 | The required balance is the least that covers every choice of debits of at most amount plus fee |
| TransferLoad.NextCheckTime | test/transfer_tps_test.js:19-59 | From one loop test to the next pass the delays, the sends and a sleep for what is left of the second, and no sleep if the sends took longer |
| TransferLoad.SessionLogExact | test/transfer_tps_test.js:230-252 | The loop logs a transaction iff send i of slot k was answered with its hash and timestamp and its nonce is startNonce + k * txPerSecond + i; the nonce ends after all slots |
| TransferLoad.LoadIsBounded | test/transfer_tps_test.js:52-56 | Whatever the clock does there are at most testDurationSeconds slots and at most the estimated number of transactions, with increasing nonces |
| TransferLoad.PunctualLoadIsFull | test/transfer_tps_test.js:234-252 | The bound is sharp: without delays there are exactly testDurationSeconds slots |
| TransferLoad.BudgetSuffices | test/transfer_tps_test.js:207-223 | A balance that passed the check pays for every nonce used, reported as sent or not, if none costs more than amount plus quoted fee |
| LoadReport.TotalsAddUpExact | test/transfer_tps_test.js:257-263 | When a callback delivers the result, successful and failed add up to the sent transactions iff no hash was logged twice |
| LoadReport.EverySentTransactionIsReported | test/transfer_tps_test.js:256-273 | If different nonces have different hashes, every transaction the loop logged is in exactly one of the two totals |
| EvmLoad.SendTransactions | test/evm_contract_tps_test.js:349-378 | One round yields the accepted sends in nonce order, whatever fails |
| EvmLoad.SendRounds | test/evm_contract_tps_test.js:464-486 | The rounds end early iff one of them cannot be set up; else all of them are logged and the nonce has advanced by all of them |
| EvmLoad.RunLoad | test/evm_contract_tps_test.js:439-486 | The test is refused iff the balance is below 0.021 units plus the tokens taken as units for each transaction, ends early iff some round cannot be set up, and else logs all rounds |
| EvmLoad.EstimateInWei | test/evm_contract_tps_test.js:442-447 | The estimate in wei: 21 * 10^15 and 10^18 per token to be transferred, for each transaction |
| EvmLoad.LogIsComplete | test/evm_contract_tps_test.js:461-478 | For every pattern of failures nonces grow strictly inside the window of the test, and a transaction is logged iff send i of round k was answered with its hash and timestamp and its nonce is startNonce + k * txPerSecond + i |
| EvmLoad.GasWithinEstimate | test/evm_contract_tps_test.js:442-451 | If no transaction pays more than gas limit times gas price, all gas paid stays within the gas estimate and within every balance that passes the check |
| EvmLoad.CheckOverasksExact | test/evm_contract_tps_test.js:445-451 | Some balance that covers the gas estimate is refused iff anything is to be transferred |
| EvmLoad.RefusedThoughSufficient | test/evm_contract_tps_test.js:445-451 | Then the gas estimate itself pays for the gas of every session and is refused |
| EvmLoad.MonitorBatch | test/evm_contract_tps_test.js:392-412 | For every completion order inside a batch, a hash of the batches so far is successful iff some entry with it has a receipt of status 1, and failed iff some entry with it has another outcome |
| EvmLoad.MonitorTransactions | test/evm_contract_tps_test.js:382-421 | For every list, batch size and completion order: the loop is left within a number of batches iff these hold all hashes; then a hash is successful iff some entry with it has a receipt of status 1, and failed iff some entry with it has another status, no receipt or an error; each printed total is that of the first (k+1) batches |
| EvmLoad.VerdictByReceipt | test/evm_contract_tps_test.js:393-410 | The two sets that batches of any order lead to, in terms of the receipts alone |
| EvmLoad.MonitorEndsExact | test/evm_contract_tps_test.js:391 | The loop ends iff the batch size is positive or the list empty |
| EvmLoad.PartitionExact | test/evm_contract_tps_test.js:383-410 | The two sets always hold all hashes; they are disjoint with sizes adding up to the number of entries iff no hash is listed twice |
| EvmLoad.ProgressIsExact | test/evm_contract_tps_test.js:391-417 | With distinct hashes the total after batch k is exactly min((k+1)*batchSize, n) |
| TokenLedger.Token.constructor | test/deploy_evm_contract.js:324 | Constructor: the caller holds the whole supply and is the owner |
| TokenLedger.Token.TransferInternal | test/deploy_evm_contract.js:324 | Offset 0x90c: all writes and reverts of the internal transfer in any storage, the state at a panic included |
| TokenLedger.Token.MintInternal | test/deploy_evm_contract.js:324 | Offset 0x5c0: all writes and reverts of minting in any storage |
| TokenLedger.Token.Transfer | test/deploy_evm_contract.js:324 | Offset 0x82d: a whole call, undone if it reverts; conservation is kept |
| TokenLedger.Token.TransferFrom | test/deploy_evm_contract.js:324 | Offset 0x4a5: a whole call, undone if it reverts; conservation is kept |
| TokenLedger.Token.Mint | test/deploy_evm_contract.js:324 | Offset 0x5c0: a whole call, undone if it reverts; conservation is kept |
| TokenLedger.RunConserves | test/deploy_evm_contract.js:324 | After any calls by anyone, reverted ones and self-transfers included, the balances add up to the supply, which fits in a word |
| TokenLedger.TransferExact | test/deploy_evm_contract.js:324 | In conserved storage a transfer ends in exactly one of success, short balance and zero recipient, each iff its condition holds; inner re-check, checked subtraction and addition never fail; balances change by the value and nowhere else, and one log entry says so |
| TokenLedger.TransferPanicExact | test/deploy_evm_contract.js:324 | In arbitrary storage the internal transfer panics iff crediting another account overflows, so conservation is what excludes it; at the panic just the debit is written |
| TokenLedger.MintPanicExact | test/deploy_evm_contract.js:324 | In arbitrary storage minting panics iff supply or credited balance overflows; at the panic nothing is written in the first case, just the supply in the second |
| TokenLedger.OutflowIsOwnPayments | test/deploy_evm_contract.js:324 | Over any run what leaves an account is exactly what its own returned transfer and transferFrom calls gave away, so nobody spends for somebody else |
| TokenLedger.EveryEntryIsAuthorised | test/deploy_evm_contract.js:324 | Every log entry of a run was asked for by a call in it: a transfer by the account it debits, an issue by the owner |
| TokenLedger.MintExact | test/deploy_evm_contract.js:324 | In conserved storage minting succeeds iff the owner calls, the recipient is not zero and has no code, and the supply still fits; each refusal has its exact condition; the credited balance cannot overflow; one log entry says what was issued |
| TokenLedger.ReachableOutcomes | test/deploy_evm_contract.js:324 | In every reachable state success and panic of each call are decided by its arguments, the balance of its caller, the deployer and what was minted; only minting can panic |
| TokenLedger.OnlyCallersPay | test/deploy_evm_contract.js:324 | Over any run an account that makes no call itself never loses anything |
| TokenLedger.LogExplainsLedger | test/deploy_evm_contract.js:324 | The event log accounts for every balance and the supply since deployment; the owner never changes |
| Genesis.Endow | node/src/chain_spec.rs:147-156 | The in-place loop appends the stashes and nominators that are new, in the order of their first occurrence |
| Genesis.EndowedExact | node/src/chain_spec.rs:147-158 | Exactly initial accounts, stashes and nominators are endowed, the initial ones first; an account is listed twice iff the initial list names it twice |
| Genesis.AdditionsInOrder | node/src/chain_spec.rs:148-156 | Of two accounts that the loop adds, the one whose first occurrence is earlier comes first |
| Genesis.EndowmentsInOrder | node/src/chain_spec.rs:147-158 | Behind the initial accounts the endowed ones stand in the order in which the stashes and, after them, the nominators first name them |
| Genesis.EndowedInDetail | node/src/chain_spec.rs:147-158 | An account has a balance iff it is an initial account, a nominator or the stash of an authority |
| Genesis.TestnetGenesis | node/src/chain_spec.rs:140-272 | The builder panics iff there are nominators but no authorities; otherwise all lists derive from the same endowed accounts, authorities and draws, and all constants are in place |
| Genesis.ListsInDetail | node/src/chain_spec.rs:161-244 | Entry by entry: session account is the controller and session validator the stash, with the three keys in place; stakers are stash, controller and bond of each authority, then each nominator with the stashes drawn for it |
| Genesis.BalancesInDetail | node/src/chain_spec.rs:227-262 | The initial accounts come first; everybody has 10^26 base units; committee and elected members are the first of them, with a thousandth of that as stake |
| Genesis.SettingsInDetail | node/src/chain_spec.rs:229-272 | Slash reward, bonds, pool bonds, epoch configuration and identifiers in figures |
| Genesis.NominationsBounded | node/src/chain_spec.rs:167-176 | Nominations are validator stashes, fewer than 16 and fewer than there are authorities |
| Genesis.NominationCountInDetail | node/src/chain_spec.rs:167-170 | The number of nominations is the remainder of the raw draw by the smaller of 16 and the number of authorities |
| Genesis.NominationCountExact | node/src/chain_spec.rs:169-176 | Some draw yields n nominations iff n is below the limit |
| Genesis.SomeDrawIsEmpty | node/src/chain_spec.rs:169-176 | With any authorities some draw yields no nomination |
| Genesis.AlwaysEmptyExact | node/src/chain_spec.rs:169-176 | Every draw yields no nomination iff there is a single authority |
| Genesis.NominationsDistinctExact | node/src/chain_spec.rs:167-176 | No random outcome repeats a nomination iff the stashes are distinct or there are at most two authorities |
| Genesis.NominationsAreBacked | node/src/chain_spec.rs:164-178 | Every nominated account is a validator among the stakers, is invulnerable and owns session keys |
| Genesis.FundingExact | node/src/chain_spec.rs:161-166 | Endowments cover all stashes an account puts up as staker and elected member iff these are at most a thousand per endowment |
| Genesis.EveryStakerIsFunded | node/src/chain_spec.rs:227-255 | With lists that name nobody twice every account covers all its stakes, even as validator, nominator and elected member at once |
| Genesis.BondsMeetMinimum | node/src/chain_spec.rs:244-246 | Every staker is endowed and its bond meets the configured minimum for its role |
| Genesis.CommitteeExact | node/src/chain_spec.rs:248-262 | Elected members and committee are the first half of the endowed accounts rounded up; they all come from the front of the initial list iff no more accounts were added than it holds |
| VoterBags.Table | runtime/src/configs/voter_bags.rs:9-221 | 200 thresholds from the existential weight to the largest score, each step by the constant ratio 1.06282535907434 within one unit of the fourteenth decimal and rounding |
| VoterBags.EveryScoreHasItsBag | runtime/src/configs/voter_bags.rs:19-221 | For every 64-bit score exactly one threshold is at least the score with its predecessor below it; linear scan and binary search both find it |
| VoterBags.BagMatesAreClose | runtime/src/configs/voter_bags.rs:14-17 | Two scores in the same bag other than the lowest differ by less than the constant ratio |
| VoterBags.DistantBagsAreApart | runtime/src/configs/voter_bags.rs:14-17 | Scores in bags that are not neighbours differ by more than the ratio |
| Mortality.PeriodExact | runtime/src/configs/mod.rs:440-442 | For every 32-bit window: the period is a power of two iff the window is at least 2, then below the window, and the largest such power iff the window is at most 2^31; beyond that it is 2, and below window 2 it is 0 |
| Mortality.HashOutlivesTransaction | runtime/src/configs/mod.rs:440-448 | Blocks within one period from the current block are less than the block-hash window away from it |
| Mortality.PeriodValue | runtime/src/configs/mod.rs:440-442 | For windows up to 2^31 a power of two is the period iff the window lies above it and not above its double |
| Mortality.ConfiguredPeriod | runtime/src/configs/mod.rs:122 | The configured window of 2400 blocks gives period 2048 |

## Left out

- The monitor allows head callbacks after the subscription is closed and lets other steps run between the end of the
  loop and the closing part of a callback; real runs are among the runs of the model.
- Exceptions inside the synchronous classification and a rejected subscription are not modelled.
- MonitorRuns.BelowCursorIsDecided: assumes a chain without reorganisations, because its claim is about the block
  that a number stands for.
- MonitorRuns.VerdictsAgree: the same assumption, as it compares two runs over one chain.
- MonitorRuns.ResultIsScheduleIndependent: the same, and so do the results of `MonitorLosses` that name a chain. The
  other monitor results hold with reorganisations.
- EvmLoad.MonitorTransactions: takes a bound on the number of batches, because with batch size 0 the loop of the
  script never ends; EvmLoad.MonitorEndsExact says when some bound is enough.
- Signing, hashing, key derivation and the network: hashes are strings, replies and failures are parameters.
- The conversion of the decimal amount by floating point, rates per second and other console output; the limit of
  the big-number library on multiplication by a small number.
- What the chain does with nonces after a gap, and the existential deposit that a transfer must leave behind.
- ABI decoding, the refusal of attached native value, gas, string getters and the never written allowance of the
  token; injectivity of storage hashing is taken for granted by using maps.
- The narrowing of the number of authorities to 32 bits.
- Mortality.HashOutlivesTransaction: does not include what the era type makes of the period (its lower and upper
  bound, the quantisation of the phase) nor the pruning of block hashes, which are not part of this model.
- The pallets that consume thresholds, stakers and nominations are not part of this model. BinaryBag and LinearBag
  stand for any lookup in the sorted table.
- Node assembly, RPC, runtime APIs, precompiles, the template pallet and the remaining client scripts.
