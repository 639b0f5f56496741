# Coin tools: a verified model

This project models the parts of the coin tools that compute, loop or share state, and proves what
they promise. The chain libraries the tools link against (hashing, signatures, encodings, subsidy
schedules, the memory pool's entries) appear only as parameters: arbitrary functions, with an
assumption stated where a property needs one.

| files | what they model |
|---|---|
| `Counting`, `RacyCounter` | the result counter that all search threads increment without a lock |
| `Schedules` | runs of a state machine over any schedule, and when they must end |
| `BlockHeader`, `GenesisWorker` | the header's fixed-width arithmetic and one genesis search thread |
| `GenesisSearch`, `GenesisTheorems`, `GenesisWork`, `GenesisRun` | the parallel genesis search over every interleaving |
| `Substring`, `AddressSearch`, `AddressTheorems`, `AddressRun` | the case-insensitive search and the parallel address search |
| `Sums`, `Rewards`, `RewardReport`, `RewardColumns` | the coin-and-remainder accumulator, the reward reports, and each of their columns |
| `BaseFee` | the two searches for a base fee |
| `KeyPairing`, `KeyReport` | pairing private with public keys, and the report of it |
| `Settings`, `DebugLog` | merging configuration files; the log's start-of-line flag |
| `ParseArguments`, `ParseTheorems`, `ParseLists`, `ParseLoop`, `ParseConservation`, `ParseRoundTrip` | the keyword argument parser |
| `MempoolFill` | filling the memory pool up to its limit |

`dafny verify dfyconfig.toml` checks everything.

## How the searches are modelled

Each search is a state machine whose events are one atomic action of one thread: the spawner draws a
nonce or starts or joins a thread; a worker copies the shared header, samples the clock, hashes a
candidate, loads the counter, stores it, prints one line, takes or gives back the mutex, polls the
counter, moves on. A schedule is any sequence of events, and an event whose thread cannot move leaves
the state alone, so a lemma about `Run(cfg, schedule)` for every `schedule` is a lemma about every
interleaving. `(*result)++` is two events, and lost updates do happen (`RacyCounter.LostUpdate`).
`GenesisRun` and `AddressRun` are the programs themselves: an object with the memory the threads have
(counter, mutex, output, header, each thread's variables) updated in place, and the machine's history
as ghost fields. An abstraction function reads the machine's state off both, every action is proved to
refine the machine's step, and `FindGenesis` and `FindAddress` state what a whole run prints, in terms
of its output alone.

The pure functions that loops are proved against (`VarAfter`, `FirstWins`, `Booked`, `Filter`,
`Tally` and so on) fold over the input from its end; what the program promises is then proved about
them as lemmas.

## Findings

These are places where the code does less than its text suggests. The model keeps the code's
behaviour, and each comes with the exact condition or a concrete run.

- Two genesis threads may search the very same headers, because the spawner overwrites the shared
  header before a slow thread has copied it (`GenesisWork.DuplicatedWork`). All threads work from
  different draws exactly when each copied before the next draw (`GenesisWork.DistinctDrawsIffOwn`),
  and two threads never hash a common header among their first 65536 exactly when their start nonces
  differ (`GenesisWork.DifferentStartsDoDifferentWorkIff`).
- `findaddress` prints its congratulations even if nothing was found
  (`AddressTheorems.EmptyCongratulations`), namely exactly when every thread left because a fresh key
  failed its own check (`AddressTheorems.NothingFoundIff`).
- The carry test is `small > COIN`, so a remainder can stay at a full coin and a column total can be
  one coin short; `Rewards.PurseClosedForm` says exactly when. A column's printed total is the exact
  floor of what was booked to it exactly if its windows leave over less than a coin together
  (`RewardColumns.ColumnIsFloorIff`), and two cuts of one range into windows agree on a column exactly
  if they leave over the same (`RewardColumns.CutsAgreeIff`); what a window leaves over is computed
  from its amounts. `RewardReport.ColumnTotalDependsOnWindows` is a schedule on which two reports
  differ. Row and grand totals are always exact.
- Height 1 is booked to the founders in the statistics but shown as the miner's by `blockreward`.
- With time stamps and thread names both off, an empty message leaves the start-of-line flag wrong
  (`DebugLog.FlagTracksTextIff`). A message with a NUL that starts a line would be cut there when
  thread names are on (`DebugLog.BodiesAreMessagesIff`), but the only caller of `WriteStr` has already
  cut its text at the first NUL (common/utils.cpp:153). A message with an inner newline leaves a line
  without a prefix (`DebugLog.LinesPrefixedIff`).
- A setting whose own name starts with `no` is filed as a negation (`Settings.FiledUnderOwnNameIff`).
- Reading a configuration file twice doubles its values in the lists
  (`Settings.RereadIsIdleForSingles`).
- A repeated keyword silently drops the values its earlier occurrence took. The parser's outputs hold
  every non-keyword as often as it was given exactly if no occurrence that takes values is repeated
  later (`ParseConservation.NothingLostIff`).
- A public key that pairs with two private keys is shown only under the first, so a repeated private
  key is shown with none (`KeyPairing.GroupsCompleteIff`).
- Case-insensitive mode accepts whatever case-sensitive mode does, except an empty address against
  only empty targets (`Substring.InsensitiveModeAcceptsMore`). The addresses `findaddress` makes come from
  `CBitcoinAddress::ToString` and are not empty, so for it there is no exception.
- The comment at cmake/Modules/CMakeParseArguments.cmake:82-84 says of
  `my_install(TARGETS foo DESTINATION OPTIONAL)` both that DESTINATION is "OPTIONAL" and that it is
  empty. The code, and the model with it, makes it empty (`ParseTheorems.OptionEndsSingle`).

## Model

| member | source | states |
|---|---|---|
| `RacyCounter.LoadKeepsConsistent` | common/genesis.cpp:67 | reading the counter at any moment keeps it consistent: never above the number of finished increments, zero only if there is none, equal to it exactly if no store was lost |
| `RacyCounter.StoreKeepsConsistent` | common/genesis.cpp:67 | storing a stale value keeps that too, adds exactly one finisher, and leaves the counter positive |
| `RacyCounter.LostUpdate` | common/keytool.cpp:389 | two increments that overlap leave the counter at 1 with two finishers |
| `BlockHeader.StartNonceClosedForm` | common/genesis.cpp:114-118 | shifting left by 32 and right by 16 keeps the low 224 bits of the random value, moved up by 16: below 2^240 and a multiple of 2^16 |
| `BlockHeader.NonceDoesNotWrap` | common/genesis.cpp:77 | counting up from a start nonce does not wrap within 2^256 - 2^240 candidates |
| `BlockHeader.FirstNoncesDisjointIff` | common/genesis.cpp:112-118 | the first 65536 nonces of two workers are disjoint exactly if their start nonces differ |
| `GenesisWorker.CounterStep` | common/genesis.cpp:58-83 | the iteration counter stays within 0..1001 and passes the code's test after exactly the positive multiples of 1001 |
| `GenesisWorker.LastSampleIsLatest` | common/genesis.cpp:79-83 | the clock value a header time rests on is the first one or the one taken at the latest refresh |
| `GenesisWorker.CandidateClosedForm` | common/genesis.cpp:58-83 | candidate n is the start header with nonce start+n modulo 2^256 and the time of the last clock sample at the initial offset, modulo 2^32 |
| `GenesisWorker.HeaderTimeFollowsClock` | common/genesis.cpp:54-83 | with a monotone clock and no 32-bit overflow, header times never decrease and keep the initial distance from the last clock value taken |
| `GenesisWorker.Get` | common/genesis.cpp:50-97 | the loop hashes exactly the candidates of the closed form, in order, and stops at the first that meets the target or at which another thread's count is seen |
| `GenesisSearch.StepKeepsInv` | common/genesis.cpp:50-129 | every atomic step of every thread keeps the invariant of the whole search |
| `GenesisSearch.WorkStepKeepsInv` | common/genesis.cpp:50-97 | in particular every step of a search thread |
| `GenesisSearch.MainStepKeepsInv` | common/genesis.cpp:99-129 | in particular every step of the spawner |
| `GenesisTheorems.ReachableIsInv` | common/genesis.cpp:99-129 | every state of every interleaving satisfies the invariant |
| `GenesisTheorems.CounterTracksFinders` | common/genesis.cpp:67-75 | at any moment the counter is positive exactly if some thread has counted, never above their number, and equal to it exactly if no increments overlapped |
| `GenesisTheorems.PrintedHeadersMeetTarget` | common/genesis.cpp:65-73 | every header ever printed hashes to at most the target and differs from the input only in nonce and time |
| `GenesisTheorems.PrintedBlocksAreContiguous` | common/genesis.cpp:69-72 | the mutex keeps the three lines of each printed header together |
| `GenesisTheorems.JoinMeansFound` | common/genesis.cpp:104-128 | with at least one thread, at the join a thread has counted exactly if its last header meets the target; it has then announced this once and printed exactly that header; no other thread has printed any; the counter is between 1 and the number of finders |
| `GenesisTheorems.DoneMeansFound` | common/genesis.cpp:65-128 | the same of every state that satisfies the invariant and has joined all threads |
| `GenesisWork.NoncesAreMasked` | common/genesis.cpp:114-118 | every nonce the spawner writes is a masked random value |
| `GenesisWork.NonceIsDrawn` | common/genesis.cpp:114-118 | the n-th nonce is masked from the random value of the event that drew it, before the n-th thread was started |
| `GenesisWork.StartNonceProvenance` | common/genesis.cpp:53-122 | thread i counts up from a nonce drawn for some thread j >= i, and the last thread from its own |
| `GenesisWork.ThreadFollowsLoop` | common/genesis.cpp:53-83 | in any interleaving a thread's header and counter are what the loop on its own makes, from the header last written when it copied and by the clock values it saw |
| `GenesisWork.NoHitIsPassedOver` | common/genesis.cpp:60-77 | in any interleaving, every candidate a thread has gone past was above the target |
| `GenesisWork.RunContinues` | common/genesis.cpp:53-83 | from one moment of a run to a later one a thread keeps its draw and only adds candidates and clock values |
| `GenesisWork.HeaderTimeNeverDecreases` | common/genesis.cpp:54-83 | along any run a thread's header time never decreases while its clock is monotone and no time overflows, and keeps the initial distance from the last clock value taken |
| `GenesisWork.DuplicatedWork` | common/genesis.cpp:118-121 | a concrete interleaving in which two threads copy the same header |
| `GenesisWork.DistinctDrawsIffOwn` | common/genesis.cpp:109-123 | the threads have pairwise different draws exactly if each has its own |
| `GenesisWork.FirstHash` | common/genesis.cpp:53-60 | the first header a thread hashes is the input with the nonce it copied |
| `GenesisWork.DifferentStartsDoDifferentWorkIff` | common/genesis.cpp:77-121 | over a whole run two threads never hash the same header among their first 65536 exactly if their start nonces differ |
| `GenesisTheorems.StepsLeftDecreases` | common/genesis.cpp:74-75 | with the counter positive every step that changes anything lowers a measure of the steps left, and the counter stays positive |
| `GenesisTheorems.BoundedShutdown` | common/genesis.cpp:58-128 | from a positive counter at most 15 steps per thread remain in any schedule |
| `GenesisTheorems.NoDeadlock` | common/genesis.cpp:65-128 | until the join some thread can always move |
| `GenesisTheorems.EndIsReached` | common/genesis.cpp:58-128 | from a positive counter some schedule of at most as many events as there are steps left joins every thread |
| `GenesisTheorems.AtMostOneMoreCandidate` | common/genesis.cpp:58-90 | from a positive counter on, a thread hashes at most one further candidate, and none if it stands between a hash and the poll that follows |
| `GenesisRun.SearchMemory.constructor` | common/genesis.cpp:104-106 | the program's memory starts out as an instance of the machine's initial state |
| `GenesisRun.SearchMemory.Spawner` | common/genesis.cpp:109-128 | the spawner's action on the program's memory refines the machine's step, under the abstraction that reads history from ghost fields |
| `GenesisRun.SearchMemory.Searcher` | common/genesis.cpp:50-97 | the same for a search thread's action on its own variables, the counter, the mutex and the output |
| `GenesisRun.SearchMemory.Execute` | common/genesis.cpp:99-129 | any interleaving of these actions refines the machine's run |
| `GenesisRun.FindGenesis` | common/genesis.cpp:99-129 | whatever the interleaving, every header in the output meets the target and is the input but for nonce and time; when the search returns, some thread's last header meets the target, and a thread's last header is in the output exactly if it does |
| `Substring.Search` | common/utils.h:56-61 | the first position from a start at which all characters compare equal, or the end of the text |
| `Substring.EqualAtIsOccursAt` | common/utils.h:45-49 | comparing characters after upper-casing is the same as finding the upper-cased needle in the upper-cased text |
| `Substring.CiFindSubstrIsLeftmost` | common/utils.h:56-62 | the result is the least index at which the upper-cased needle occurs, and -1 exactly if there is none or the text is empty |
| `Substring.OccursAtIff` | common/utils.h:58-60 | standing at an index means that the text is something of that length, the needle, and something more |
| `Substring.ContainsIff` | common/keytool.cpp:380 | in case-sensitive mode an address contains a target exactly if it is something, the target, and something more; otherwise exactly if that holds of both upper-cased and the address is not empty |
| `Substring.MatchTargets` | common/keytool.cpp:377-395 | the counting loop reports exactly if there is a target and, in the chosen mode, every target stands somewhere in the address |
| `Substring.InsensitiveModeAcceptsMore` | common/keytool.cpp:378-395 | case-insensitive mode accepts what case-sensitive mode accepts, except exactly when the address and all targets are empty |
| `AddressSearch.StepKeepsInv` | common/keytool.cpp:358-430 | every atomic step of every thread keeps the invariant of the address search |
| `AddressTheorems.ReachableIsInv` | common/keytool.cpp:358-430 | every state of every interleaving satisfies it |
| `AddressTheorems.ReportsAreTheHits` | common/keytool.cpp:365-396 | what a thread has reported is exactly those of its candidates that match, never more than one, each from a key that passed its own check |
| `AddressTheorems.MadeKeysAreExamined` | common/keytool.cpp:365-395 | every key a thread makes it goes on to match, unless it leaves because of it |
| `AddressTheorems.ReportedIffFound` | common/keytool.cpp:365-391 | a thread has reported exactly those keys it made that passed their check and whose address contains every target |
| `AddressTheorems.ReportedAddressMatches` | common/keytool.cpp:378-391 | a reported address contains every target in the chosen case mode |
| `AddressTheorems.EveryFindIsReported` | common/keytool.cpp:386-427 | at the end there are as many reports as threads that counted a find |
| `AddressTheorems.NothingFoundIff` | common/keytool.cpp:370-427 | nothing is reported exactly if every thread left through the failed key check |
| `AddressTheorems.CounterTracksFinders` | common/keytool.cpp:365-389 | the counter is positive exactly if somebody has counted, and equals the number of finders exactly if no increments overlapped |
| `AddressTheorems.EmptyCongratulations` | common/keytool.cpp:370-427 | a concrete run that congratulates without a find |
| `AddressTheorems.StepsLeftDecreases` | common/keytool.cpp:365-426 | with the counter positive every step that changes anything brings the end nearer |
| `AddressTheorems.BoundedShutdown` | common/keytool.cpp:365-426 | from a positive counter at most 7 steps per thread and one more remain |
| `AddressTheorems.NoDeadlock` | common/keytool.cpp:365-427 | until the end some thread can always move |
| `AddressTheorems.EndIsReached` | common/keytool.cpp:365-427 | from a positive counter some schedule of at most as many events as there are steps left ends the command |
| `AddressTheorems.AtMostOneMoreCandidate` | common/keytool.cpp:365-396 | from a positive counter on, a thread examines at most one further candidate, and none unless it had already polled |
| `AddressRun.SearchMemory.Commander` | common/keytool.cpp:419-427 | the main thread's action on the program's memory refines the machine's step |
| `AddressRun.SearchMemory.Searcher` | common/keytool.cpp:358-397 | the same for a search thread's action, which matches with the counting loop of `MatchTargets` |
| `AddressRun.SearchMemory.Execute` | common/keytool.cpp:399-430 | any interleaving of these actions refines the machine's run |
| `AddressRun.FindAddress` | common/keytool.cpp:399-430 | whatever the interleaving, every reported address contains all targets as they stand, or upper-cased, and its key passed its check; on return exactly the matching keys made are reported, it has congratulated, and nothing is reported exactly if every thread complained of a key and left |
| `Rewards.AddReward` | common/rewardtool.cpp:12-21 | adding keeps coin * COIN + small exact for any value; a non-negative value keeps small within 0..COIN, both ends included, and zero only if nothing but whole coins was added |
| `Rewards.PurseHolds` | common/rewardtool.cpp:12-21 | any run of additions leaves a purse worth their sum, with its remainder in 0..COIN and zero exactly if all amounts were whole coins |
| `Rewards.PurseIsUnique` | common/rewardtool.cpp:12-21 | and no other purse has these properties |
| `Rewards.AddRewardExtends` | common/rewardtool.cpp:12-21 | what one call promises determines its result: the purse of the longer run |
| `Rewards.PurseClosedForm` | common/rewardtool.cpp:16-20 | the coins are the floor of the sum, except one less exactly when the sum is even but some value was not |
| `Rewards.RecombinedIsFloor` | common/rewardtool.cpp:59-60 | recombining coins and remainders into a total gives the exact floor |
| `RewardReport.BlockReward` | common/rewardtool.cpp:125-139 | the whole is the floor of all subsidies at the height, each part the floor of what the statistics book at it (but for height 1), and the whole exceeds the parts' sum by at most three coins |
| `RewardReport.BookHeight` | common/rewardtool.cpp:45-57 | one pass of the inner loop takes the four purses of a window to those of the window one longer |
| `RewardReport.CollectWindow` | common/rewardtool.cpp:36-58 | the inner loop fills the four purses with exactly what the window books |
| `RewardReport.BookedAtSums` | common/rewardtool.cpp:45-57 | what a height books to each column, height 1 and the gate on the budget included |
| `RewardReport.ColumnsHoldSubsidies` | common/rewardtool.cpp:43-58 | over any window the four columns together hold exactly what `BlockReward` adds up for its blocks, height 1 included |
| `RewardReport.WindowWorth` | common/rewardtool.cpp:59-60 | a window's coins and remainders are together worth its subsidies, with at most four coins in the remainders |
| `RewardReport.ReportWindow` | common/rewardtool.cpp:36-73 | a printed row has its window's heights, as total the exact floor of the window's subsidies, and in each column what was booked but for what the amounts leave over |
| `RewardReport.ReportTotal` | common/rewardtool.cpp:75-80 | recombining the summed columns and remainders gives the grand total |
| `RewardReport.ReportWindows` | common/rewardtool.cpp:34-74 | the outer loop prints the rows of the adjoining windows in order and sums their columns |
| `RewardReport.RewardStatistics` | common/rewardtool.cpp:23-81 | row k is such a line for the k-th stretch of years; the totals line adds up the rows' columns, ends at the last height and has the exact floor of all subsidies covered; the rows' totals add up to the sum of the windows' floors |
| `RewardReport.ColumnAddsUp` | common/rewardtool.cpp:61-64 | the printed rows of a column add up to its printed total |
| `RewardReport.BlocksAddUp` | common/rewardtool.cpp:59-73 | the printed row totals add up to the sum of the windows' floors |
| `RewardReport.GrandTotalIsExact` | common/rewardtool.cpp:75-76 | the grand total is the exact floor of everything the windows cover |
| `RewardReport.WindowsTile` | common/rewardtool.cpp:41-43 | adjoining windows leave out no height and count none twice |
| `RewardReport.ReportIsExact` | common/rewardtool.cpp:23-80 | for all arguments the grand total is the floor of the subsidies of heights 0 up to years * count * 210240, or 0 if an argument is not positive |
| `RewardReport.GrandTotalIgnoresWindows` | common/rewardtool.cpp:34-80 | reports over equally many years in all agree on the grand total, however they cut them |
| `RewardReport.CarryBounds` | common/rewardtool.cpp:59-76 | the grand total exceeds the column totals by at most four coins a window, and the row totals by at most the number of windows less one |
| `RewardReport.ColumnTotalDependsOnWindows` | common/rewardtool.cpp:61-68 | a schedule whose miner column differs by a coin between two windows of a year and one of two years |
| `RewardReport.SparseScheduleIsSparse` | common/rewardtool.cpp:61-68 | there is such a schedule |
| `RewardReport.HeightsFitInt32Iff` | common/rewardtool.cpp:41-42 | for positive arguments the height products fit a 32-bit int exactly up to 10214 years in all |
| `Rewards.LeftoverIsRemainder` | common/rewardtool.cpp:16-20 | what a run of additions leaves besides coins, from the amounts alone: the sum's remainder, or a full coin if the sum is even but some amount was not |
| `RewardColumns.ColumnWorth` | common/rewardtool.cpp:61-68 | a column's printed total and its windows' leftovers are together worth what was booked to it, for any column and windows |
| `RewardColumns.ColumnIsFloorIff` | common/rewardtool.cpp:61-79 | a column's printed total is the exact floor exactly if its leftovers come to less than a coin, and otherwise short by the coins in them |
| `RewardColumns.ColumnTiles` | common/rewardtool.cpp:41-58 | adjoining windows book to each column what their whole range does |
| `RewardColumns.CutsAgreeIff` | common/rewardtool.cpp:41-68 | two cuts of one range print the same column total exactly if they leave over the same |
| `RewardColumns.ReportsAgreeOnColumnIff` | common/rewardtool.cpp:34-80 | in particular two reports over equally many years in all |
| `BaseFee.LeastEnoughIsLeast` | common/rewardtool.cpp:244-246 | the least enough base fee is enough, and exactly the base fees from it on are |
| `BaseFee.LeastEnoughIff` | common/rewardtool.cpp:244-246 | the base fees from the least enough one on are those from 2 on that, divided by the decay, reach the threshold |
| `BaseFee.AffordableIff` | common/rewardtool.cpp:242 | the loop's test: the fee at the base fee's decayed rate, rounded down, is below the maximum |
| `BaseFee.DecayDoubles` | common/rewardtool.cpp:236-237 | the decay factor is 1 at the start and doubles with every quarter, or half, of the half-life |
| `BaseFee.FindBaseFee` | common/rewardtool.cpp:242-252 | a loop terminates; it breaks exactly if every smaller base fee is affordable, then with the least base fee from 2 on that is enough, and otherwise stops at the first that is not affordable |
| `BaseFee.QuarterIsHalfSquared` | common/rewardtool.cpp:236-237 | the decay over a quarter of the half-life is the square of that over half of it |
| `BaseFee.QuarterNeedsMore` | common/rewardtool.cpp:245-258 | for a non-negative time the quarter answer is at least the half answer, for a non-positive one at most |
| `BaseFee.BreaksIffFirstTestPasses` | common/rewardtool.cpp:239-252 | unless some rate below half the minimum asks ten thousand times the minimum fee, a loop breaks exactly if it is entered at all |
| `BaseFee.FirstTestPassesIff` | common/rewardtool.cpp:239-242 | for a decay of at least one it is entered exactly if the minimum fee for the size is not zero |
| `BaseFee.SearchFee` | common/rewardtool.cpp:239-252 | a search succeeds exactly if its first test passes, then with the least enough base fee, and otherwise stays at 1 |
| `BaseFee.CalcMemFee` | common/rewardtool.cpp:233-265 | the two decays are the powers of two of time over a quarter and half of the half-life; each loop yields the least enough base fee or stays at 1; for a non-negative time both succeed or neither does, and the quarter answer is at least the half answer |
| `KeyPairing.ErasePaired` | common/keytool.cpp:157-167 | erasing while iterating lists exactly the public keys that pair and leaves exactly those that do not, both in order |
| `KeyPairing.PairKeys` | common/keytool.cpp:153-172 | under each private key stand the public keys for which it is the first that pairs, in order, and left over are those that pair with none |
| `KeyReport.CheckKey` | common/keytool.cpp:114-182 | the first missing setting decides the error; otherwise the log is the undecodable keys, then one block for each private key, then the leftovers under a heading if there are any, entry by entry; and it shows every public key exactly as often as it was given |
| `KeyReport.PartsAreReport` | common/keytool.cpp:153-179 | in the n-th block stand, inside the frame, exactly the public keys whose first partner is the n-th private key, in order, and after it that key alone exactly if there are none |
| `KeyReport.ReportShowsAllPublics` | common/keytool.cpp:153-179 | the report shows every public key exactly as often as it was given |
| `KeyPairing.GroupReads` | common/keytool.cpp:157-167 | the keys listed under a private key are, in order, exactly those that pair with it and with none before it |
| `KeyPairing.LeftoverReads` | common/keytool.cpp:174-179 | the keys left over are, in order, exactly those that pair with no private key |
| `KeyReport.DecodeSecrets` | common/keytool.cpp:121-131 | private keys that decode are kept in order, the others reported in order |
| `KeyReport.SecretsRead` | common/keytool.cpp:121-131 | the keys kept are, in order, the decodings of exactly the texts that decode |
| `KeyReport.BadSecretsRead` | common/keytool.cpp:125-128 | the keys reported are, in order, exactly the texts that do not |
| `KeyPairing.PassTakesFirstPaired` | common/keytool.cpp:157-167 | one pass over what earlier passes left, said of the original list |
| `KeyPairing.ReportIsPartition` | common/keytool.cpp:153-179 | counted with repeats, the groups and the leftovers are exactly the public keys |
| `KeyPairing.LeftoverIgnoresOrder` | common/keytool.cpp:174-179 | the leftovers depend neither on the order of the private keys nor on repeats among them |
| `KeyPairing.GroupsCompleteIff` | common/keytool.cpp:157-167 | every private key is shown with all its public keys exactly if no public key pairs with two of them |
| `Settings.NegationStripsOneLayer` | common/utils.cpp:225-240 | a negated name loses exactly one "no", and its value becomes a "0" or "1" of opposite meaning |
| `Settings.EmptyNegationIsZero` | common/utils.cpp:225-240 | an empty value counts as true, so negating an empty entry files "0" |
| `Settings.AtoiReads` | common/utils.cpp:229 | leading space is skipped, a sign decides the sign, and the digits after it make the number whatever follows |
| `Settings.DigitsValueExtend` | common/utils.cpp:229 | digits are read in base ten |
| `Settings.CountsAsTrueIff` | common/utils.cpp:225-230 | a value counts as true exactly if it is empty or its number has a digit other than zero |
| `Settings.FiledUnderOwnNameIff` | common/utils.cpp:233-240 | an entry is filed as it is exactly if its name is not "no" and something more |
| `Settings.SettingsStore.ReadFile` | common/utils.cpp:251-273 | an unreadable file changes nothing; otherwise both maps become the first-wins and append-all merges of what they held |
| `Settings.SettingsStore.ReadEntry` | common/utils.cpp:265-270 | one entry sets its normalised key if it was unset and is appended to the key's list |
| `Settings.ReadLeaves` | common/utils.cpp:262-271 | for every key: the prior value or else the file's first, and the prior list followed by all of the file's values in order |
| `Settings.ReadsCompose` | common/utils.cpp:287-296 | reading one file and then another is reading the two as one |
| `Settings.RereadIsIdleForSingles` | common/utils.cpp:268-270 | reading a file again never changes a single value, and leaves the lists alone exactly if the file is empty |
| `Settings.ReadKeepsCoherent` | common/utils.cpp:268-270 | reads keep the two maps on the same keys, the single value being the first of the list |
| `Settings.NegationSharesTheList` | common/utils.cpp:267-270 | an entry and its negation go into one list, in file order |
| `DebugLog.WrittenIsChunk` | common/utils.cpp:59-92 | stamping and naming together write the prefix and the message at a line start, and the bare message otherwise |
| `DebugLog.Log.WriteStr` | common/utils.cpp:111-137 | appends the message's chunk to the file, returns its length, and keeps flag and file those of the messages written |
| `DebugLog.FlagTracksText` | common/utils.cpp:119-122 | with a prefix setting on, the flag is true exactly if the text so far is empty or ends a line |
| `DebugLog.FlagTracksTextIff` | common/utils.cpp:111-137 | for all settings: the flag agrees with the text after a message, except exactly when both settings are off and an empty message comes at a line start |
| `DebugLog.PrefixAtLineStarts` | common/utils.cpp:59-92 | a message gets its prefix exactly if the text before it is empty or ends a line |
| `DebugLog.PrefixReads` | common/utils.cpp:59-92 | a prefix is the date, with six digits of microseconds if they are on, and a space, then the thread's name moved right to fill 16 columns, and a bar, each only if its setting is on |
| `DebugLog.DigitsRead` | common/utils.cpp:70 | a number that fits is written in exactly that many decimal digits |
| `DebugLog.BodiesAreMessagesIff` | common/utils.cpp:86-89 | deleting the prefixes gives back all messages exactly if no message with a NUL started a line under thread names |
| `DebugLog.LinesPrefixedIff` | common/utils.cpp:111-137 | every line of the log starts with a prefix exactly if no message has a newline before its end |
| `ParseLoop.InitialVars` | cmake/Modules/CMakeParseArguments.cmake:107-119 | before the loop every option is FALSE and every value keyword and the unparsed list are empty |
| `ParseLoop.TakeValue` | cmake/Modules/CMakeParseArguments.cmake:127-137 | a non-keyword goes to the keyword that is open or else to the unparsed list |
| `ParseLoop.TakeKeyword` | cmake/Modules/CMakeParseArguments.cmake:138-150 | a keyword closes what was open, resets its own variable and opens itself if it takes values |
| `ParseLoop.Parse` | cmake/Modules/CMakeParseArguments.cmake:106-161 | the map returned, in terms of the caller's three lists: a name in the options list is TRUE exactly if it occurs; a name in the one-value list has at most the word right after its last occurrence; a name in the multi-value list has the maximal run of words after its last occurrence; the unparsed list has, in order, the words no keyword takes |
| `ParseLists.AllByLists` | cmake/Modules/CMakeParseArguments.cmake:122-151 | the fold says this of any arguments; words are the arguments in none of the lists, and a name in several lists counts as an option first and a one-value keyword second |
| `ParseLists.UnparsedByLists` | cmake/Modules/CMakeParseArguments.cmake:127-137 | the unparsed words are those before which no keyword stands, or one that takes no more |
| `ParseTheorems.LastOccurrenceDecides` | cmake/Modules/CMakeParseArguments.cmake:121-153 | a multi-value keyword has the maximal run of non-keywords after its last occurrence, a one-value keyword at most the argument right after it, an option is TRUE exactly if it occurs |
| `ParseTheorems.LastMultiDecides` | cmake/Modules/CMakeParseArguments.cmake:132-149 | in particular for multi-value keywords |
| `ParseTheorems.LastSingleDecides` | cmake/Modules/CMakeParseArguments.cmake:129-145 | in particular for one-value keywords |
| `ParseTheorems.UnparsedIsLeftover` | cmake/Modules/CMakeParseArguments.cmake:135-137 | the unparsed list holds, in order, exactly the non-keywords at which no keyword was open |
| `ParseTheorems.VarIsKept` | cmake/Modules/CMakeParseArguments.cmake:128-149 | a value keyword's variable holds, in order, exactly the non-keywords taken by its last occurrence |
| `ParseTheorems.NothingDroppedIff` | cmake/Modules/CMakeParseArguments.cmake:142-149 | no value is dropped by a repeat of its keyword exactly if each occurrence that takes a value is its keyword's last |
| `ParseTheorems.OptionEndsSingle` | cmake/Modules/CMakeParseArguments.cmake:82-84 | the comment's example: a one-value keyword right before an option is left empty, and the option is TRUE |
| `ParseConservation.ArgumentsConserved` | cmake/Modules/CMakeParseArguments.cmake:121-153 | counted with repeats, the non-keywords are exactly what the unparsed list and all value keywords' variables hold together, and the dropped values |
| `ParseConservation.NothingLostIff` | cmake/Modules/CMakeParseArguments.cmake:121-153 | those outputs hold every non-keyword as often as it was given exactly if each keyword occurrence that takes a value is its keyword's last |
| `ParseRoundTrip.SegmentSetsItsVar` | cmake/Modules/CMakeParseArguments.cmake:138-150 | writing a keyword with its values after any arguments sets its variable to them and leaves the unparsed list alone |
| `ParseRoundTrip.SegmentLeavesOthers` | cmake/Modules/CMakeParseArguments.cmake:138-150 | and leaves every other keyword's variable alone |
| `ParseRoundTrip.RoundTrip` | cmake/Modules/CMakeParseArguments.cmake:106-161 | parsing written-out arguments gives back the leading arguments and every keyword's content or default |
| `ParseRoundTrip.ExpectedIsContent` | cmake/Modules/CMakeParseArguments.cmake:106-161 | where no keyword is written twice, that is each keyword's own content |
| `MempoolFill.TxMemPool.Fill` | common/mempool.cpp:114-139 | exactly the entries that stay below the limit are added, in order; the loop says full exactly if one did not, and reports as the tally says |
| `MempoolFill.AdmittedFits` | common/mempool.cpp:126-130 | the admitted entries stay below the limit and one more would reach it |
| `MempoolFill.FillEnds` | common/mempool.cpp:114-139 | once as many positive entries as free bytes have been made the loop has ended, below the limit by at most the entry it turned away |
| `MempoolFill.TallyBounds` | common/mempool.cpp:124-136 | every interim report stands for more than a step's worth of bytes of its own |
| `MempoolFill.TallyIsRegular` | common/mempool.cpp:124-136 | with entries of at most a given size, reports come at least every step plus that size |
| `MempoolFill.AtMostNineReports` | common/mempool.cpp:132-136 | filling makes at most nine interim reports |

## Left out

- Hashing, ECDSA, Base58, Base64 and hex: the functions and predicates they give are parameters.
- The chain's subsidy, budget and superblock functions: any functions of the height, assumed non-negative.
- The memory pool's own bookkeeping: an entry is its size, and adding it raises the pool's size by it.
- `SetCompact` and the genesis block's construction: the target is a parameter.
- `RewardHandle` (common/rewardtool.cpp:83-103): its last column is a chain function that is not part of this model.
- Alerts, nodes, the server and the event loop: network plumbing.
- Help texts, command dispatch and argument counts, column widths and banners: only easy members.
- Opening configuration files and splitting them into names and values: a file is unreadable or a list of entries. `ReadFile` and `ReadCurrentFile` differ only in the path, so one method models both.
- The debug lists of `ToolLog`, and a log file that cannot be opened; calls to `WriteStr` come one at a time.
- src/utiltool.cpp: a partial copy of common/utils.cpp.
- The C++ memory model: steps are sequentially consistent, and a thread copies the shared header in one step.
- Fixed-width overflow of amounts, counters, fees and `atoi`, apart from the header's fields and `RewardReport.HeightsFitInt32Iff`.
- The rounding of doubles: rates and decay factors are real numbers, and `pow` is any function with the laws of powers that the result needs.
- CMake's own list rules: arguments are non-empty and free of semicolons, and no keyword is named UNPARSED_ARGUMENTS.
- GenesisWorker.Get: runs the endless loop for a given number of iterations and takes other threads' counts as an input; the state machine has neither limit, and `GenesisWork.ThreadFollowsLoop` ties its threads to this loop.
- BaseFee.CalcMemFee: rates are exact reals, so the last digit of a printed rate is not modelled; the chain's fee function is any that never asks ten thousand times the minimum fee below half the minimum rate.
- AddressSearch.WorkStep: a report of several chained `cout` writes is one line of the output, although no mutex keeps other threads' text out of it.
- Fairness of the scheduler: the searches are shown to have few steps left and to be able to take them, not that a scheduler takes them.
- MempoolFill.TxMemPool.Fill: takes a finite list of attempts, so that a decoder that fails for ever is not a run.
