# A verified model of status-go's stateful cores

This project models six components of status-go in Dafny and proves what they promise over every input and
every run: the accounts manager (database against keystore files), the activity-center store, image
compression to a size limit, the health notifications and the IPFS downloader, the log namespace tree, and
the circuit breaker's fallback loop.

Code that updates fields or rows step by step is modelled by methods and classes, each proved against a
specification function or relation; the theorems are lemmas about those specifications. The concurrent protocols
are state machines over their atomic steps, and the theorems range over all runs.

`dafny verify dfyconfig.toml` checks the whole project.

## Components

| files | component |
|---|---|
| `AccountsStore`, `AccountsRuns`, `AccountsEffects`, `AccountsCoverage`, `AccountsTheorems`, `AccountsMasterFile`, `AccountsManager` | `AccountsManager` over the account database and the keystore |
| `ActivityCursor`, `ActivityQuery`, `ActivityStatement`, `DescendingOrder`, `ActivityPages`, `ActivityState`, `ActivityEffects`, `ActivityStore` | the activity center: cursor order, query building, pagination, flags |
| `ImageSizes`, `ImageEncoding` | resizing arithmetic and the compression loops |
| `ProvidersHealth`, `BlockchainHealth`, `HealthStaleReads`, `HealthLossReachable`, `HealthLateHandling`, `HealthManagers` | health notifications |
| `IpfsDownloader`, `IpfsReplies`, `IpfsProgress` | the downloader's queues, goroutines and Stop |
| `NamespaceFormat`, `NamespacesTree` | the log namespace format, trie and filter |
| `CircuitBreaker` | fallback execution |
| `Wrappers` | option and result types |

## What the proofs found

Each point below is a property one would expect that the code does not have in full. The code is modelled as it
is; a lemma gives a concrete failing input or run, and another the exact condition under which the property holds.

- `MakePrivateKeyKeypairFullyOperable` stores the master key only but marks every live account. Coverage of accounts
  by files survives exactly when the master file is all that was missing (`PrivateKeyOperableExact`,
  `PrivateKeyOperableLosesCoverage`).
- `SaveOrUpdateKeycard` ignores the new key uid when the keycard uid is already stored, but deletes the files all the
  same; without a password it only ends the keypair's exemption. `SaveKeycardExact` says when coverage survives a success,
  `FailedSaveKeycardExact` when it survives a failure (`SaveKeycardLosesCoverage`, `PasswordlessSaveLosesCoverage`,
  `FailedSaveKeycardLosesCoverage`).
- The same collision takes the files of the profile (`KeycardStrandsProfile`); `ProfileLostExactly` says that no other
  successful operation makes the profile unsafe. Its rows stay in every run (`RunKeepsProfileRows`).
- Deleting, creating and adding do not fail safely: a deletion removes files before it flags rows, the others save rows
  before they store files. `FailureLosesExactly` says, for every operation and every covered state, from which states some
  failure halfway leaves an account without its file (`FailuresLoseCoverage`), and `SuccessKeepsExactly` the same for
  successes.
- The profile's master file can go: an account may be added at the master address, and deleting that account deletes its
  file, which is the master file (`MasterAccountLosesMaster`). `MasterLostExactly` says which steps take it, and
  `RunKeepsMaster` and `MasterLeftAloneStays` that it stays in all other runs.
- `AcceptActivityCenterNotifications` updates rows it does not return when one of the ids was accepted before
  (`AcceptCanReturnLess`, `AcceptAgreesExactly`).
- `AcceptAllActivityCenterNotifications` returns dismissed rows that it does not update, and the others as they were
  before; `DismissActivityCenterNotificationsByCommunity` returns every live row not accepted (`OthersAreReturned`,
  `AcceptAllAgreesExactly`, `AcceptAllReturnsOldExactly`, `CommunityAgreesExactly`).
- A page limit of 0 makes the cursor loop return the same cursor for ever on a non-empty result
  (`ZeroLimitNeverEnds`); a limit of 2^64 - 1 wraps around, so that the whole listing
  comes as one page and an empty one panics (`NotificationsPage`).
- Saving an unread notification without updating the state, and setting the state by hand, break the seen flag
  exactly when `SaveKeepsSeenExactly` and `SetStateKeepsSeenExactly` say (`SeenCanBreak`).
- After a failed compression round the bytes left in the buffer make the next round's first, highest quality
  unacceptable whatever its size (`CompressedIsOneEncoding`, `LeftoverCosts`); they change the outcome exactly when that
  quality alone would have been accepted (`LeftoverChangesExactly`).
- Bounds that do not start at the origin can grow in the pre-compression resize (`OffsetImageGrows`) and in the first
  95% round (`OffsetRoundGrows`); `PreResizeBoundedExactly` and `RoundShrinksExactly` say when they do not.
- An emission whose context ends early loses a wake-up exactly when someone it did not serve did not know already
  (`CancelExact`, `CancelLosesWakeUp`).
- It is not enough for health that Updates and handlings do not overlap: if an Update begins while a token is still
  unhandled, a client can be left with a stale status (`LateHandlingLosesNotification`). Either of two conditions on a run
  prevents it: every token is handled before the next Update (`RunLosesNoNotification`), or no client reads a status that
  is not stored yet (`CalmRunLosesNothing`). `LossReachableExactly` gives, for every reachable state, the exact condition
  for a loss to be still possible.
- It is not enough for the downloader that a Get started before Stop: one that is still looking into the cache when the
  wait ends can send on a closed queue (`StartedBeforeStop`, `LateGetCanPanic`).
- The log filter can accept an entry that the level enabler refuses, exactly when pairs are in force, none covers the
  logger, and the entry lies below every configured level (`FilterAcceptsRefused`, `FilterAndEnablerDisagree`).
- A functor that succeeds in its circuit while the command is cancelled gives a value and an error together
  (`CancelledSuccessHasError`, `ValueWithErrorExactly`).
- The cached minimum level can be stale (`MinimumMayBeStale`), exactly when no pair with that level is still in force
  (`MinimumIsCurrentExactly`).

## Model

| member | source | states |
|---|---|---|
| AccountsTheorems.RunKeepsCoverage | accounts-management/persistence_operations.go:17-612 | over every run, every live, fully operable account of a live keypair off keycards has its keystore file, except for keypairs in the window between adding from a keycard and saving the keycard; an operation may succeed wherever `KeepsOnSuccess` holds and fail wherever `MayLose` does not, and accounts no code checks are rightly derived |
| AccountsTheorems.ExemptIsWindow | accounts-management/persistence_operations.go:108-159 | a keypair is exempt exactly while its last add-from-keycard has not been followed by saving its keycard or re-creating its files |
| AccountsRuns.StepKeepsCoverage | accounts-management/persistence_operations.go:17-612 | one operation, complete or broken off, keeps coverage |
| AccountsRuns.StepKeepsWf | accounts-management/interface_persistence.go:1-45 | every account row stays at the address derived from its keypair and path, and the zero address never gets a file |
| AccountsRuns.CreateKeepsCoverage | accounts-management/persistence_operations.go:17-106 | creating a keypair and storing its files covers all its new accounts |
| AccountsRuns.AddStoredKeepsCoverage | accounts-management/persistence_operations.go:108-159 | adding a keypair from a keycard exempts that keypair and no other |
| AccountsRuns.MakeKeepsCoverage | accounts-management/persistence_operations.go:291-349 | store-then-mark keeps coverage on success and on every failure |
| AccountsRuns.PartialKeepsCoverage | accounts-management/persistence_operations.go:351-389 | deriving files for partially operable accounts one by one keeps coverage wherever it stops |
| AccountsRuns.AddAccountsKeepsCoverage | accounts-management/persistence_operations.go:391-459 | added accounts have their files when the call succeeds |
| AccountsRuns.MigrateKeepsCoverage | accounts-management/persistence_operations.go:461-510 | forgetting the keycards after storing the files leaves every account covered |
| AccountsRuns.DeleteAccountKeepsCoverage | accounts-management/persistence_operations.go:551-581 | deleting an account's files takes no other account's file |
| AccountsRuns.RemovedKeypairCoverage | accounts-management/persistence_operations.go:583-612 | deleting a keypair takes no other keypair's file |
| AccountsRuns.GarbageNotNeeded | accounts-management/keystore_operations.go:249-295 | nothing that cleaning deletes is a file an account needs |
| AccountsRuns.UpsertAllFacts | multiaccounts/accounts/database.go:767-792 | insert-or-ignore then update: an existing row keeps key uid, path and default flags; exactly the listed addresses may be new |
| AccountsEffects.CreateMnemonicEffect | accounts-management/persistence_operations.go:17-106 | a created keypair has exactly the wallet account and, for the profile, the chat account, with default flags for the profile only; the files are the master, wallet and chat keys |
| AccountsEffects.CreatePrivateKeyEffect | accounts-management/persistence_operations.go:232-287 | one account at the master address, and its file |
| AccountsEffects.AddStoredEffect | accounts-management/persistence_operations.go:108-159 | the keypair and its accounts are saved, rows it had before are dropped, and no file changes |
| AccountsEffects.MakeSeedEffect | accounts-management/persistence_operations.go:291-322 | exactly the live accounts of the keypair become fully operable; the new files are the master key and one key per live account path |
| AccountsEffects.MakePrivateKeyEffect | accounts-management/persistence_operations.go:325-349 | the same rows, and the master file only, which was not there |
| AccountsEffects.MakePartialEffect | accounts-management/persistence_operations.go:351-389 | exactly the live, partially operable accounts of live keypairs off keycards are marked, and each has its derived file |
| AccountsEffects.AddAccountsRows | accounts-management/persistence_operations.go:391-459 | new rows as listed, known rows with new flags and their old identity, the others untouched |
| AccountsEffects.AddAccountsChecks | accounts-management/persistence_operations.go:408-443 | off keycards every added account was new, of the keypair, no default account of the profile, and rightly derived |
| AccountsEffects.AddAccountsFiles | accounts-management/persistence_operations.go:450-458 | off keycards exactly the added addresses get files; on a keycard none |
| AccountsEffects.MigrateEffect | accounts-management/persistence_operations.go:461-510 | the keypair's keycards and no others are gone, and all its keys are stored |
| AccountsEffects.SaveKeycardEffect | accounts-management/persistence_operations.go:514-549 | a new uid is filed, a known one keeps its keypair; with a password the files of a keypair off keycards go and its live accounts are marked |
| AccountsEffects.DeleteAccountFiles | accounts-management/keystore_operations.go:153-196 | the file of a fully operable account of a live keypair off keycards goes, and with its last account the master file of a keypair that has one; otherwise no file |
| AccountsEffects.DeleteAccountRows | multiaccounts/accounts/database.go:631-680 | the account is flagged; with the last one of a live keypair the keypair is flagged and its keycards go |
| AccountsEffects.DeleteKeypairEffect | accounts-management/keystore_operations.go:201-247 | off keycards the files of the fully operable accounts go, and the master file if any account is operable; the keypair, its live accounts and its keycards are gone from the tables |
| AccountsEffects.UpsertLastFlags | multiaccounts/accounts/database.go:767-792 | the last entry for an address decides its flags |
| AccountsCoverage.SuccessKeepsExactly | accounts-management/persistence_operations.go:17-612 | for every operation and covered state: a success keeps coverage if and only if `KeepsOnSuccess` holds before the call, a condition on saving keycards and on marking a private-key keypair only |
| AccountsCoverage.PrivateKeyOperableExact | accounts-management/persistence_operations.go:325-349 | marking a private-key keypair keeps coverage if and only if the keypair is exempt or the master file was all that was missing |
| AccountsTheorems.PrivateKeyOperableLosesCoverage | accounts-management/persistence_operations.go:325-349 | a concrete keypair for which it does not |
| AccountsCoverage.SaveKeycardExact | accounts-management/persistence_operations.go:514-549 | saving a keycard, with or without a password, keeps coverage without the keypair's exemption if and only if the keypair is on a keycard already, the uid is not filed under another key uid, or every account that then needs its file still has it |
| AccountsCoverage.FailedSaveKeycardExact | accounts-management/persistence_operations.go:514-549 | a failed save keeps coverage if and only if the uid does not collide or every file the keypair needs is still there |
| AccountsTheorems.SaveKeycardLosesCoverage | multiaccounts/accounts/keycard_database.go:248-305 | a concrete keycard uid collision that loses a file |
| AccountsTheorems.PasswordlessSaveLosesCoverage | multiaccounts/accounts/keycard_database.go:248-305 | a concrete collision without a password that leaves a keypair with neither keycard nor files |
| AccountsTheorems.FailedSaveKeycardLosesCoverage | accounts-management/persistence_operations.go:531-546 | a failing save that loses a file in the same way |
| AccountsCoverage.FailureLosesExactly | accounts-management/persistence_operations.go:17-612 | for every operation and covered state: some failure halfway loses coverage if and only if `MayLose` holds before the call: a deletion of something that needs a file, a keycard uid collision over one, or a save of an account that needs a file it does not have |
| AccountsCoverage.FailedDeleteAccountExact | accounts-management/persistence_operations.go:551-581 | a failed DeleteAccount keeps coverage if and only if the account did not need its file or still has it |
| AccountsCoverage.FailedDeleteKeypairExact | accounts-management/persistence_operations.go:583-612 | a failed DeleteKeypair keeps coverage if and only if every file the keypair needs is still there |
| AccountsCoverage.FailedAddAccountsExact | accounts-management/persistence_operations.go:391-459 | a failed AddAccounts keeps coverage if and only if it saved nothing or every added account that needs a file has it |
| AccountsCoverage.FailedCreationExact | accounts-management/persistence_operations.go:17-106 | a failed creation, from a mnemonic or a private key, keeps coverage if and only if it saved nothing, the keypair needs no files, or every account it made its own has its file |
| AccountsCoverage.FailureKeepsCoverage | accounts-management/persistence_operations.go:17-612 | outside those states no failure of any operation loses coverage |
| AccountsTheorems.FailuresLoseCoverage | accounts-management/persistence_operations.go:17-612 | one covered state from which each of the five operations can lose coverage |
| AccountsTheorems.RunKeepsProfileRows | accounts-management/persistence_operations.go:551-612 | over every run, failed calls included, the profile keypair, its chat account and its default wallet account are never removed, provided accounts added to keycard keypairs are fresh and rightly derived |
| AccountsTheorems.RunKeepsProfile | accounts-management/persistence_operations.go:514-612 | and the files of both accounts stay until it is on a keycard, and the master file unless an account row sits at the master address, if no operation strands the profile |
| AccountsTheorems.StepCarriesProfile | accounts-management/persistence_operations.go:17-612 | one operation, complete or broken off, leaves the rows, a keycard once there, and the files unless it strands the profile |
| AccountsTheorems.ProfileLostExactly | accounts-management/persistence_operations.go:514-549 | a success of any operation keeps the profile safe if and only if it does not save, with a password, a keycard uid filed under another key uid for a profile off keycards whose files the deletion goes for |
| AccountsTheorems.KeycardStrandsProfile | accounts-management/persistence_operations.go:531-546 | from every safe state off keycards such a save leaves the profile with neither keycard nor chat nor master file |
| AccountsMasterFile.RunKeepsMaster | accounts-management/persistence_operations.go:391-612 | over every run the master file stays until the profile is on a keycard, if no operation takes it as `TakesMaster` says |
| AccountsMasterFile.MasterLeftAloneStays | accounts-management/persistence_operations.go:391-612 | so it stays in every run that adds no account at the master address and saves no keycard uid of another keypair for the profile |
| AccountsMasterFile.MasterLostExactly | accounts-management/persistence_operations.go:17-612 | a step off keycards loses the master file only by deleting a fully operable account at the master address, by cleaning after a removed one, or by a colliding keycard uid, and does so whenever that succeeds |
| AccountsMasterFile.KeycardTakesMasterExactly | accounts-management/persistence_operations.go:514-549 | the case of the keycard uid |
| AccountsMasterFile.DeletionTakesMasterExactly | accounts-management/keystore_operations.go:153-196 | deleting a non-default account takes the master file if and only if it is the fully operable account at the master address |
| AccountsMasterFile.CleanTakesMasterExactly | accounts-management/keystore_operations.go:249-295 | cleaning takes it if and only if a removed account sits at the master address |
| AccountsMasterFile.MasterRowAdded | accounts-management/persistence_operations.go:391-459 | a row at the master address comes only from adding that account to the profile |
| AccountsMasterFile.MasterAccountLosesMaster | accounts-management/persistence_operations.go:391-581 | from every safe state off keycards, adding an account at the master address and deleting it again takes the master file |
| AccountsTheorems.DeleteAccountSparesProfile | accounts-management/keystore_operations.go:153-196 | the last-account test cannot hold for the profile, so deleting an account never goes for its chat or wallet file |
| AccountsTheorems.CreateMakesProfileSafe | accounts-management/persistence_operations.go:17-106 | creating the profile establishes that safety |
| AccountsTheorems.CleanExact | accounts-management/keystore_operations.go:249-295 | a successful clean leaves a file if and only if it was there and is neither an obsolete account's nor an obsolete master's |
| AccountsTheorems.CleanKeepsLiveFiles | accounts-management/keystore_operations.go:134-145 | no clean, complete or broken off, loses the file of a live account of a keypair off keycards |
| AccountsManagement.AccountsManager.CreateKeypairFromMnemonicAndStore | accounts-management/persistence_operations.go:17-106 | takes only the create step whatever call fails, with each error case, and succeeds when no call fails |
| AccountsManagement.AccountsManager.AddKeypairStoredToKeycard | accounts-management/persistence_operations.go:108-159 | changes the database only, all or nothing, after the path checks |
| AccountsManagement.AccountsManager.CreateKeypairFromPrivateKeyAndStore | accounts-management/persistence_operations.go:232-287 | takes only the create step of a private-key keypair, and succeeds only if the key's file is not there yet |
| AccountsManagement.AccountsManager.SaveAndStore | accounts-management/persistence_operations.go:86-97 | a failure leaves either the old state or the saved rows with some of the files |
| AccountsManagement.AccountsManager.MakeSeedPhraseKeypairFullyOperable | accounts-management/persistence_operations.go:291-322 | marks the keypair only after every file is stored |
| AccountsManagement.AccountsManager.MakePrivateKeyKeypairFullyOperable | accounts-management/persistence_operations.go:325-349 | stores the master key, which must not be there yet, then marks all live accounts |
| AccountsManagement.AccountsManager.MakePartiallyOperableAccountsFullyOperable | accounts-management/persistence_operations.go:351-389 | marks exactly the partially operable accounts of live keypairs off keycards, each after its file, and returns them |
| AccountsManagement.AccountsManager.CheckAddedAccounts | accounts-management/persistence_operations.go:408-443 | succeeds only for accounts of the keypair, new, not default for the profile and rightly derived |
| AccountsManagement.AccountsManager.AddAccountsToKeypair | accounts-management/persistence_operations.go:391-459 | saves the rows, then stores the files, with every partial state |
| AccountsManagement.AccountsManager.MigrateNonProfileKeycardKeypairToApp | accounts-management/persistence_operations.go:461-510 | forgets the keycards only after every file is stored; refuses the profile |
| AccountsManagement.AccountsManager.SaveOrUpdateKeycard | accounts-management/persistence_operations.go:514-549 | saves the row first, then deletes the files of a keypair that was not on a keycard |
| AccountsManagement.AccountsManager.DeleteAccountByAddress | accounts-management/persistence_operations.go:551-581 | deletes the file, then flags the row; refuses default accounts without change |
| AccountsManagement.AccountsManager.DeleteKeypairByUID | accounts-management/persistence_operations.go:583-612 | deletes the files, then flags the keypair; refuses the profile without change |
| AccountsManagement.AccountsManager.CleanKeystoreFiles | accounts-management/keystore_operations.go:249-295 | deletes only garbage, and on success all of it |
| AccountsManagement.AccountsManager.StoreKeystoreFiles | accounts-management/keystore_operations.go:79-96 | master first, then the derived keys; a failure leaves some of them |
| AccountsManagement.AccountsManager.StoreToKeystore | accounts-management/keystore_operations.go:98-116 | adds the one file, or nothing; an extended key whose file is there is no error, a plain private key is refused |
| AccountsManagement.AccountsManager.DeleteFileIfExists | accounts-management/keystore_operations.go:134-145 | a missing file is no error |
| AccountsManagement.AccountsManager.DeleteAccountFile | accounts-management/keystore_operations.go:153-196 | deletes the account's file, and the master file only with the last account |
| AccountsManagement.AccountsManager.DeleteKeypairFiles | accounts-management/keystore_operations.go:201-247 | deletes the files of fully operable accounts and the master file if any account is operable |
| AccountsManagement.AccountsManager.DeriveChildAndStore | accounts-management/keystore_operations.go:354-366 | stores the child's file only when the parent key could be loaded |
| AccountsManagement.AccountsManager.LoadAccount | accounts-management/manager.go:95-119 | succeeds only for a file in an open keystore |
| AccountsManagement.AccountsManager.Logout | accounts-management/manager.go:172-183 | clears the session and leaves both stores |
| ActivityCursor.CursorOrder | protocol/activity_center_persistence.go:35-35 | for timestamps below 10^64 cursor text order is exactly the order on (timestamp, id bytes), and equal cursors mean equal pairs |
| ActivityCursor.TimestampFits | protocol/activity_center_persistence.go:35-35 | every 64-bit timestamp is in that range |
| ActivityCursor.HexOrder | protocol/activity_center_persistence.go:35-35 | upper-case hex keeps and reflects the order of byte strings |
| ActivityCursor.HexDigits | protocol/activity_center_persistence.go:35-35 | two upper-case hexadecimal digits per byte, the high one first |
| ActivityCursor.PaddedValue | protocol/activity_center_persistence.go:35-35 | the first 64 characters of a cursor are the timestamp in decimal |
| ActivityCursor.PaddedIsDigits | protocol/activity_center_persistence.go:35-35 | padding with zeros and cutting to 64 characters gives the fixed-width decimal |
| ActivityQuery.PrepareConditionsAndArgs | protocol/activity_center_persistence.go:513-575 | for every parameter record the conditions have as many placeholders as arguments, and evaluating them with arguments consumed left to right selects exactly the rows that satisfy the parameters |
| ActivityStatement.CompiledStatement | protocol/activity_center_persistence.go:567-587 | for every parameter record the whole statement, LIMIT included, has as many placeholders as arguments; consuming them left to right selects exactly the rows asked for and leaves exactly the limit for LIMIT |
| ActivityStatement.BuildStatement | protocol/activity_center_persistence.go:577-587 | builds such a statement text and argument list |
| ActivityStatement.ConsumeLeaves | protocol/activity_center_persistence.go:584-587 | conditions that consume their own arguments leave the ones after them untouched |
| ActivityStatement.StatementPlaceholders | protocol/activity_center_persistence.go:577-587 | the text has one placeholder per condition argument, and one more for LIMIT |
| ActivityQuery.CompiledQuery | protocol/activity_center_persistence.go:513-575 | the conditions without LIMIT, as specified by the clause list |
| ActivityQuery.ClausesMean | protocol/activity_center_persistence.go:513-575 | the clauses hold of a row if and only if it satisfies the parameters |
| ActivityEffects.ReadFilter | protocol/activity_center_persistence.go:537-543 | the read filter lets exactly the read rows through, or exactly the unread ones, or both |
| ActivityEffects.OtherFilters | protocol/activity_center_persistence.go:526-567 | every other filter narrows to the rows it names, and accepted rows come only when asked for |
| ActivityQuery.JoinArity | protocol/activity_center_persistence.go:569-572 | the joined condition text has one placeholder per argument of its conditions |
| ActivityQuery.EvaluateClauses | protocol/activity_center_persistence.go:577-587 | positional evaluation of a condition list is the conjunction of its clauses with their own arguments |
| ActivityPages.BuildQuery | protocol/activity_center_persistence.go:577-596 | builds the statement and runs it: the first rows in descending cursor order, and the cursor of the last one fetched |
| ActivityPages.RunStatement | protocol/activity_center_persistence.go:577-596 | running a statement whose conditions mean the parameters and leave the limit gives exactly those rows |
| ActivityPages.NotificationsPage | protocol/activity_center_persistence.go:728-760 | the page and next cursor below the integer bound, and what happens at and above it |
| ActivityPages.NotificationsCount | protocol/activity_center_persistence.go:598-609 | the number of rows satisfying the filter |
| ActivityPages.PagesAreTheResult | protocol/activity_center_persistence.go:728-760 | for every table, filter and limit of at least 1, following the cursors ends, and the pages together are all matching rows in descending cursor order, each once, as many as the count says |
| ActivityPages.PagesAreChunks | protocol/activity_center_persistence.go:728-760 | the pages are the listing cut into pieces of the limit |
| ActivityPages.ChunksFlatten | protocol/activity_center_persistence.go:728-760 | the pieces put together are the listing; all but the last are full |
| ActivityPages.NextPageContinues | protocol/activity_center_persistence.go:748-757 | the query from the returned cursor lists exactly what the page left |
| ActivityPages.CursorNarrows | protocol/activity_center_persistence.go:513-530 | a cursor condition keeps that row and those below it |
| ActivityPages.ZeroLimitNeverEnds | protocol/activity_center_persistence.go:728-760 | with limit 0 the returned cursor leads back to the same empty page |
| DescendingOrder.PickTop | protocol/activity_center_persistence.go:589-596 | repeatedly taking the greatest gives the first rows of the descending listing |
| DescendingOrder.DescendingSorted | protocol/activity_center_persistence.go:589-596 | the listing is sorted and holds each element once |
| DescendingOrder.SortedIsDescending | protocol/activity_center_persistence.go:589-596 | there is only one such listing |
| ActivityState.RunKeepsSeen | protocol/activity_center_persistence.go:762-1303 | in every run without setting the state by hand and without saving an unread notification silently, a set seen flag means no live notification is unread |
| ActivityState.StepKeepsSeen | protocol/activity_center_persistence.go:762-1303 | the same for one operation |
| ActivityState.SaveKeepsSeenExactly | protocol/activity_center_persistence.go:114-230 | saving keeps it if and only if the row is read or deleted, or the state is updated, or was unseen |
| ActivityState.SetStateKeepsSeenExactly | protocol/activity_center_persistence.go:1378-1384 | setting the state keeps it if and only if it is set to unseen or nothing is unread |
| ActivityState.RunKeepsTombstones | protocol/activity_center_persistence.go:762-1303 | in every run without saving, no column of a deleted row and not the set of ids changes |
| ActivityState.StepKeepsTombstones | protocol/activity_center_persistence.go:762-1303 | one operation other than a save leaves the set of ids and every column of every deleted row as they are |
| ActivityEffects.DeleteByIDEffect | protocol/activity_center_persistence.go:49-52 | sets deleted on the live row with the id, and nothing else; no other column or row changes |
| ActivityEffects.DeleteForMessageEffect | protocol/activity_center_persistence.go:54-112 | sets read, dismissed and deleted on the live, unaccepted rows of the chat with the message; no other column or row changes |
| ActivityEffects.SaveEffect | protocol/activity_center_persistence.go:114-230 | replaces the row of a valid notification; an unread one clears the seen flag when asked to |
| ActivityEffects.DismissAllEffect | protocol/activity_center_persistence.go:762-765 | sets read and dismissed on the live, undecided rows; no other column or row changes |
| ActivityEffects.DismissFromUserEffect | protocol/activity_center_persistence.go:767-817 | the same for one author; the flag is set anew; no other column or row changes |
| ActivityEffects.MarkDeletedEffect | protocol/activity_center_persistence.go:819-870 | sets deleted on the live rows with the ids; no other column or row changes |
| ActivityEffects.DismissEffect | protocol/activity_center_persistence.go:872-906 | sets read and dismissed on the live rows with the ids; no other column or row changes |
| ActivityEffects.DismissByCommunityEffect | protocol/activity_center_persistence.go:908-938 | sets read and dismissed on the community's live request, kick, ban and unban rows; no other column or row changes |
| ActivityEffects.DismissFromCommunityEffect | protocol/activity_center_persistence.go:940-996 | sets read and dismissed on the live rows of the community's chats; without chats nothing happens; no other column or row changes |
| ActivityEffects.DismissFromChatEffect | protocol/activity_center_persistence.go:998-1048 | sets read and dismissed on the chat's live, unaccepted rows other than contact requests; no other column or row changes |
| ActivityEffects.AcceptAllEffect | protocol/activity_center_persistence.go:1050-1074 | sets read and accepted on the live, undecided rows; no other column or row changes |
| ActivityEffects.AcceptEffect | protocol/activity_center_persistence.go:1076-1125 | sets read and accepted on the live rows with the ids; no other column or row changes |
| ActivityEffects.AcceptInvitesEffect | protocol/activity_center_persistence.go:1127-1179 | sets read and accepted on the author's live, undecided group invitations; no other column or row changes |
| ActivityEffects.MarkAllReadEffect | protocol/activity_center_persistence.go:1181-1200 | sets read on all live rows, and the seen flag; no other column or row changes |
| ActivityEffects.MarkReadEffect | protocol/activity_center_persistence.go:1202-1236 | sets read on the live rows with the ids; no other column or row changes |
| ActivityEffects.MarkUnreadEffect | protocol/activity_center_persistence.go:1253-1303 | clears read on the live rows with the ids, and the seen flag if there is one; no other column or row changes |
| ActivityEffects.DeleteContactRequestsEffect | protocol/activity_center_persistence.go:1346-1368 | sets deleted on the chat's live contact requests; no other column or row changes |
| ActivityEffects.StateEffect | protocol/activity_center_persistence.go:1378-1412 | setting and recomputing the flag leave the table; recomputed, it is set if and only if everything live is read |
| ActivityEffects.RunKeepsDecisions | protocol/activity_center_persistence.go:762-1303 | over every run without saves accepted, dismissed and deleted are never taken back, and each is set only by an operation of its kind |
| ActivityEffects.StepKeepsDecisions | protocol/activity_center_persistence.go:762-1303 | the same for one operation; only marking unread clears read |
| ActivityEffects.AgreeingRows | protocol/activity_center_persistence.go:767-817 | a returned notification is the stored row in every column but the installation id |
| ActivityState.SeenCanBreak | protocol/activity_center_persistence.go:114-230 | from a seen center, a silent save of an unread row and setting the flag over one break the invariant |
| ActivityStore.AcceptAgreesExactly | protocol/activity_center_persistence.go:1076-1125 | what accepting by id returns is what it updated if and only if no live id was accepted before |
| ActivityStore.AcceptCanReturnLess | protocol/activity_center_persistence.go:1076-1125 | a row that is updated and not returned |
| ActivityStore.AcceptAllAgreesExactly | protocol/activity_center_persistence.go:1050-1074 | accepting everything returns the rows it updates if and only if no live, unaccepted row was dismissed before |
| ActivityStore.AcceptAllReturnsOldExactly | protocol/activity_center_persistence.go:1050-1074 | and the returned rows are the stored ones afterwards if and only if nothing was updated |
| ActivityStore.CommunityAgreesExactly | protocol/activity_center_persistence.go:908-938 | dismissing by community returns the rows it updates if and only if those are the live rows not accepted |
| ActivityStore.OthersAreReturned | protocol/activity_center_persistence.go:908-1074 | rows that each of the two returns without updating them |
| ActivityStore.SqlitePersistence.DeleteNotificationByID | protocol/activity_center_persistence.go:49-52 | the state changes as specified |
| ActivityStore.SqlitePersistence.DeleteNotificationForMessage | protocol/activity_center_persistence.go:54-112 | deletes exactly the live rows of the chat and message although its UPDATE has no deleted guard, and returns them |
| ActivityStore.SqlitePersistence.SaveNotification | protocol/activity_center_persistence.go:114-230 | refuses an invalid notification without change; otherwise replaces the row and the state |
| ActivityStore.SqlitePersistence.DismissAllNotifications | protocol/activity_center_persistence.go:762-765 | dismisses the live, undecided rows |
| ActivityStore.SqlitePersistence.DismissAllFromUser | protocol/activity_center_persistence.go:767-817 | returns exactly the updated rows, equal to the stored rows afterwards |
| ActivityStore.SqlitePersistence.MarkNotificationsDeleted | protocol/activity_center_persistence.go:819-870 | the same for deletion by id |
| ActivityStore.SqlitePersistence.DismissNotifications | protocol/activity_center_persistence.go:872-906 | dismisses the live rows with the ids; no ids, no change |
| ActivityStore.SqlitePersistence.DismissNotificationsByCommunity | protocol/activity_center_persistence.go:908-938 | updates the community's request, kick and ban rows |
| ActivityStore.SqlitePersistence.DismissAllFromCommunity | protocol/activity_center_persistence.go:940-996 | returns exactly the updated rows of the community's chats |
| ActivityStore.SqlitePersistence.DismissAllFromChatID | protocol/activity_center_persistence.go:998-1048 | returns exactly the updated rows of the chat, contact requests left alone |
| ActivityStore.SqlitePersistence.AcceptAllNotifications | protocol/activity_center_persistence.go:1050-1074 | accepts the live, undecided rows |
| ActivityStore.SqlitePersistence.AcceptNotifications | protocol/activity_center_persistence.go:1076-1125 | accepts the live rows with the ids and returns those not accepted before |
| ActivityStore.SqlitePersistence.AcceptInvitesFromUser | protocol/activity_center_persistence.go:1127-1179 | returns exactly the updated group invitations |
| ActivityStore.SqlitePersistence.MarkAllNotificationsRead | protocol/activity_center_persistence.go:1181-1200 | marks all live rows and sets the seen flag |
| ActivityStore.SqlitePersistence.MarkNotificationsRead | protocol/activity_center_persistence.go:1202-1236 | marks the rows with the ids and recomputes the flag |
| ActivityStore.SqlitePersistence.UpdateState | protocol/activity_center_persistence.go:1238-1251 | the flag is set if and only if no live row is unread |
| ActivityStore.SqlitePersistence.MarkNotificationsUnread | protocol/activity_center_persistence.go:1253-1303 | returns exactly the updated rows; clears the flag only when a row was touched |
| ActivityStore.SqlitePersistence.DeleteChatContactRequests | protocol/activity_center_persistence.go:1346-1368 | returns exactly the deleted contact requests of the chat |
| ActivityStore.SqlitePersistence.SetNotificationState | protocol/activity_center_persistence.go:1378-1384 | overwrites the flag |
| ActivityStore.SqlitePersistence.UpdateActivityCenterState | protocol/activity_center_persistence.go:1399-1412 | recomputes the flag and returns it |
| ImageSizes.RoundShrinksExactly | images/manipulation.go:91-96 | for every image with pixels: a 95% round strictly shrinks width plus height if and only if it cuts off more than the image's distance from the origin |
| ImageSizes.OffsetRoundGrows | images/manipulation.go:91-96 | images one pixel wide, as far off the origin as they are high, pass the pre-compression resize and grow in the first round |
| ImageSizes.RoundShrinks | images/manipulation.go:91-96 | an image at the origin, as it is after the first round, keeps non-zero sides non-zero and strictly shrinks until the least size, which stays |
| ImageSizes.RoundKeepsKind | images/manipulation.go:57-69 | a round keeps every image with pixels an image with pixels, at the origin |
| ImageSizes.ReachesLeast | images/encode.go:88-99 | after at most width plus height rounds the image has the least size |
| ImageSizes.DerivedAtLeast | images/manipulation.go:37-65 | exactly when a derived side reaches a given length |
| ImageSizes.ResizedSides | images/manipulation.go:57-69 | a given side is kept, a side left open follows in proportion with 0.7 added before rounding down, and with both left open the size is kept |
| ImageSizes.PreResizedSides | images/encode.go:76-86 | an image that reaches beyond 2000 gets exactly 2000 along its longer reach and the other side in proportion; any other is left alone |
| ImageSizes.PreResizeVisible | images/encode.go:76-86 | the pre-compression resize leaves pixels if and only if three times the long side is at most 20000 times the short one |
| ImageSizes.PreResizeBoundedExactly | images/encode.go:72-86 | for every image with pixels, both sides end up at most 2000 if and only if no resize is needed, or the side along the longer reach is, up to rounding, the longer side |
| ImageSizes.PreResizeBounded | images/encode.go:72-86 | so for images at the origin both sides always end up at most 2000 |
| ImageSizes.OffsetImageGrows | images/encode.go:76-86 | an image off the origin that grows to more than four million |
| ImageEncoding.EncodeToLimits | images/encode.go:40-65 | outcome and buffer are those of the first quality that fails, is below the ideal size or is the lowest; the trailing return is unreachable |
| ImageEncoding.LadderIsEvenQualities | images/encode.go:41-61 | the qualities tried are exactly the even ones from 80 down to 50 |
| ImageEncoding.WalkMeaning | images/encode.go:40-65 | success means below the ideal size, or below the maximum at the lowest quality; a size error leaves exactly the lowest-quality encoding, too large for both, and names the maximum and its size; an encoder error ends the walk at once |
| ImageEncoding.WalkSucceedsExactly | images/encode.go:40-65 | with an error-free encoder a walk succeeds if and only if some quality fits |
| ImageEncoding.LeftoverMatters | images/encode.go:44-60 | bytes left over of at least the ideal size are never part of an accepted result |
| ImageEncoding.LeftoverChangesExactly | images/encode.go:44-60 | such bytes change where the walk stops if and only if the highest quality alone would have been accepted |
| ImageEncoding.LeftoverCosts | images/encode.go:44-60 | a walk that stores nine bytes at the lowest quality where five at the highest would have done |
| ImageEncoding.CompressToFileLimits | images/encode.go:72-100 | ends with the result and buffer of the first round without a size error, whenever there is one |
| ImageEncoding.CompressRounds | images/encode.go:88-99 | the loop stops in exactly that round |
| ImageEncoding.CompressedIsOneEncoding | images/encode.go:72-100 | from an empty buffer success leaves exactly one encoding of the current image, below the ideal size or below the maximum at quality 50; after a failed round never at quality 80 |
| ImageEncoding.LaterRoundEndsExactly | images/encode.go:88-99 | a later round succeeds if and only if a quality below the highest fits |
| ImageEncoding.RoundBounds | images/encode.go:72-99 | the picture of round n has the bounds of n scalings after the pre-compression resize |
| ImageEncoding.CompressionEnds | images/encode.go:72-100 | compression of every image with pixels ends whenever images of the least size fit |
| ImageEncoding.PixelsFitThenEnds | images/encode.go:72-100 | in particular when single pixels fit and the long side is at most 6666 times the short one |
| ProvidersHealth.RunLosesNoWakeUp | healthmanager/providers_health_manager.go:32-64 | in every run with live contexts, subscribers coming, going, taking and reading between any two steps: with no Update in flight every tracked subscriber has a token, owes a read, or last read the current status |
| ProvidersHealth.CancelExact | healthmanager/subscription_manager.go:38-52 | a cancelled emission loses no wake-up if and only if everyone it did not serve was informed |
| ProvidersHealth.CancelLosesWakeUp | healthmanager/subscription_manager.go:38-52 | a run in which it does |
| ProvidersHealth.FedIsLastCall | healthmanager/providers_health_manager.go:41-45 | the last call of a provider in a batch decides its status |
| ProvidersHealth.FedKeepsOthers | healthmanager/providers_health_manager.go:41-45 | providers the batch does not name keep their status |
| ProvidersHealth.AggregateMeaning | healthmanager/aggregator/aggregator.go:90-96 | up exactly when something is up, down exactly when everything is down |
| ProvidersHealth.ResetIsSilent | healthmanager/providers_health_manager.go:84-90 | a Reset tells nobody, and the next Update always emits |
| BlockchainHealth.RunLosesNoNotification | healthmanager/blockchain_health_manager.go:73-129 | in every run where tokens are handled before the next Update begins: with nothing in flight a worker has a token to handle, or every tracked client has a token, owes a read, or last read what can be read now |
| BlockchainHealth.CalmRunLosesNothing | healthmanager/blockchain_health_manager.go:73-129 | however late tokens are handled: in every run in which no client reads a status that is not stored yet, the same holds |
| BlockchainHealth.SystemStepKeeps | healthmanager/blockchain_health_manager.go:121-162 | every step of chains, workers and clients keeps the invariant, if Updates begin only when every tracked client is informed of the stored status |
| BlockchainHealth.SettledIsReadable | healthmanager/blockchain_health_manager.go:208-228 | when nothing is in transit the status stored last is what a client reads |
| HealthLateHandling.LateHandlingLosesNotification | healthmanager/blockchain_health_manager.go:121-129 | a run without overlap in which a client is left with a stale status |
| HealthLossReachable.LossReachableExactly | healthmanager/blockchain_health_manager.go:121-129 | for every reachable state between handlings: a run without further such reads can lose a notification if and only if some tracked client is uninformed of the stored status now |
| HealthLossReachable.MisledCanLose | healthmanager/blockchain_health_manager.go:121-155 | from every such state the chains can return to the stored status and all workers handle their tokens in vain |
| HealthLossReachable.StaleReadCanLose | healthmanager/blockchain_health_manager.go:208-228 | reading a status that is not stored yet, and being left without a token, leads to such a state |
| HealthStaleReads.ReachableIsCore | healthmanager/blockchain_health_manager.go:73-162 | every state of every run, whatever the clients do, has the invariant of chains, workers and stored status |
| HealthManagers.SubscriptionManager.Subscribe | healthmanager/subscription_manager.go:19-25 | registers a new empty open channel |
| HealthManagers.SubscriptionManager.Unsubscribe | healthmanager/subscription_manager.go:27-36 | closes a registered channel once and ignores others |
| HealthManagers.SubscriptionManager.Emit | healthmanager/subscription_manager.go:38-52 | never takes a token back; with a live context every subscriber has one |
| HealthManagers.ProvidersHealthManager.DoUpdate | healthmanager/providers_health_manager.go:32-50 | stores the batch and asks to emit exactly when the status differs from the last |
| HealthManagers.ProvidersHealthManager.Update | healthmanager/providers_health_manager.go:53-64 | afterwards the last status is the current one; with a live context all were told if it changed, and nobody if it did not |
| HealthManagers.CompareShortStatus | healthmanager/blockchain_health_manager.go:165-181 | the comparison is equality of statuses |
| HealthManagers.BlockchainHealthManager.StatusPerChain | healthmanager/blockchain_health_manager.go:208-214 | the current status of every chain |
| HealthManagers.BlockchainHealthManager.AggregateAndUpdateStatus | healthmanager/blockchain_health_manager.go:121-162 | remembers the current status; with a live context tells every client if it changed, and nobody if it did not |
| IpfsDownloader.RunIsSafe | ipfs/ipfs.go:77-113 | in every run where no Get joins the wait group after the wait is over, no send or close panics and the invariant holds |
| IpfsDownloader.StepKeeps | ipfs/ipfs.go:77-113 | every step keeps it: requests distinct, answered in order, wait group equal to the Gets under way, queues within capacity |
| IpfsDownloader.OnePlace | ipfs/ipfs.go:88-113 | a Get under way is in exactly one place: its caller, one position of the line of requests, or its reply channel |
| IpfsDownloader.OneReply | ipfs/ipfs.go:159-189 | a Get that returned was answered exactly once, for its own cid |
| IpfsReplies.ReturnsTheDownload | ipfs/ipfs.go:88-97 | over every run where no Get joins too late: a Get that returned was replied to exactly once, and returned the bytes and the error of that reply, for its own cid |
| IpfsReplies.RunHasHistory | ipfs/ipfs.go:173-189 | in every state of such a run an answered Get was replied to once, with exactly that content, and no other Get was |
| IpfsDownloader.ReplyNeverBlocks | ipfs/ipfs.go:88-97 | the worker's reply finds the channel open and empty |
| IpfsDownloader.NothingOnTheWay | ipfs/ipfs.go:82-85 | when the wait is over no Get and no request is under way |
| IpfsDownloader.LineStep | ipfs/ipfs.go:99-113 | the queues and goroutines together are one first-in first-out line |
| IpfsProgress.RunEnds | ipfs/ipfs.go:159-189 | without new Gets every run is at most as long as the steps left at its start |
| IpfsProgress.Progress | ipfs/ipfs.go:88-113 | no deadlock: while a Get is under way some step serves the line or the Get |
| IpfsProgress.StuckMeansDone | ipfs/ipfs.go:77-113 | when nothing more is possible every counted Get has returned, both goroutines are gone and Stop is through |
| IpfsProgress.LateGetCanPanic | ipfs/ipfs.go:173-181 | from every state without a panic a Get that joins after the wait can go on to send on a closed queue |
| IpfsProgress.StartedBeforeStop | ipfs/ipfs.go:159-181 | a run from the start in which such a Get started before Stop |
| NamespaceFormat.FormatMeaning | logutils/namespaces_tree.go:12-20 | the regular expression matches if and only if the string is a non-empty comma list of name and level pairs |
| NamespaceFormat.ItemMeaning | logutils/namespaces_tree.go:12-12 | a pair is a non-empty name of letters, digits, underscores and dots, a colon, and one of the four level words |
| NamespaceFormat.LevelWordsParse | logutils/namespaces_tree.go:106-109 | each level word of the format parses |
| NamespacesTree.LevelCodes | logutils/lvl_from_string.go:13-22 | the level of each of the four words |
| NamespacesTree.ParseItem | logutils/namespaces_tree.go:100-109 | the later checks never fail on a pair in the format, so a rebuild is all or nothing |
| NamespacesTree.Tree.Rebuild | logutils/namespaces_tree.go:86-119 | succeeds if and only if the string is empty or in the format; the trie then holds the pairs accepted since the last empty call, and is unchanged on an error |
| NamespacesTree.Tree.AddNamespace | logutils/namespaces_tree.go:129-148 | sets the level of exactly that path |
| NamespacesTree.Tree.LevelFor | logutils/namespaces_tree.go:59-83 | the level of the longest dotted prefix among all accepted pairs, later pairs overriding earlier ones, or the invalid level when no prefix has one |
| NamespacesTree.LookupIsLongest | logutils/namespaces_tree.go:66-82 | the plain lookup answers with the longest prefix that has a level |
| NamespacesTree.AcceptedNext | logutils/namespaces_tree.go:90-98 | an empty rebuild forgets all pairs, one in the format adds its pairs, any other changes nothing |
| NamespacesTree.Tree.MinLevel | logutils/namespaces_tree.go:121-126 | the least level among all accepted pairs |
| NamespacesTree.MinIsLowerBound | logutils/namespaces_tree.go:113-115 | the cached minimum is a lower bound of every level in force |
| NamespacesTree.MinIsAttained | logutils/namespaces_tree.go:113-115 | it is invalid exactly when there are no pairs, and otherwise one of their levels |
| NamespacesTree.LookupIsExplicit | logutils/namespaces_tree.go:66-79 | a level found belongs to an explicit prefix |
| NamespacesTree.ExplicitEntriesEnabled | logutils/namespace_filtering_core.go:16-30 | an entry accepted through an explicit level passes the level enabler |
| NamespacesTree.FilterAndEnablerDisagree | logutils/namespace_filtering_core.go:16-30 | the exact condition under which an accepted entry is refused by the enabler |
| NamespacesTree.MinimumMayBeStale | logutils/namespaces_tree.go:86-119 | after the rebuild `name:debug,name:error` of any single-segment name the minimum is debug, and debug is in force nowhere |
| NamespacesTree.MinimumIsCurrentExactly | logutils/namespaces_tree.go:113-115 | the minimum is the level of some name if and only if a pair with that level is not overridden by a later one |
| NamespacesTree.FilterAcceptsRefused | logutils/namespace_filtering_core.go:16-30 | an accepted trace that the enabler refuses |
| CircuitBreaker.Execute | circuitbreaker/circuit_breaker.go:129-224 | the result of the run's unique end, for every behaviour of circuits, functors and cancellation, and the functors it called: exactly the executed ones among those handled up to that end |
| CircuitBreaker.FirstSuccessWins | circuitbreaker/circuit_breaker.go:140-223 | uncancelled: the first successful functor decides, without an error; it was called, only failing ones were called before it, and none after it |
| CircuitBreaker.AllFail | circuitbreaker/circuit_breaker.go:116-224 | uncancelled: the error lists every functor with its own fault in order, and the last call made is that of the last functor |
| CircuitBreaker.CancelledExactly | circuitbreaker/circuit_breaker.go:141-202 | the result says cancelled if and only if the run ended because cancellation was seen before a functor or after it ran in its circuit |
| CircuitBreaker.CancelledBeforeResult | circuitbreaker/circuit_breaker.go:141-144 | seen before a functor: no value, and the faults of all functors before it |
| CircuitBreaker.ValueWithErrorExactly | circuitbreaker/circuit_breaker.go:186-203 | a value and an error come together if and only if the functor succeeded in its circuit and cancellation was seen after it |
| CircuitBreaker.CancelledSuccessHasError | circuitbreaker/circuit_breaker.go:186-203 | such a run |
| CircuitBreaker.ExecutedExactly | circuitbreaker/circuit_breaker.go:147-157 | a functor is called unless it has a circuit, under the name the handler gives, that rejects it |
| CircuitBreaker.FaultMeaning | circuitbreaker/circuit_breaker.go:186-219 | the fault of a rejected functor is its circuit's, that of a failed one its own |
| CircuitBreaker.EndIsUnique | circuitbreaker/circuit_breaker.go:140-223 | a run has one end |
| CircuitBreaker.StatusesListCalls | circuitbreaker/circuit_breaker.go:164-195 | the call statuses are those of the calls made, one each, in the order of the calls |
| CircuitBreaker.IndicesAreExecuted | circuitbreaker/circuit_breaker.go:140-223 | the executed functors are listed once each, ascending |

## Left out

- Cryptography: an address is the pair of key uid and path string, so derivation never collides. Paths that the decoder reads alike ("m", "." and ""; "m/0" and "m/00") are different addresses here; mnemonics, encryption and password checks are failures a call may report.
- Keystore files are a set of addresses; the keystore directory is fixed, and moving, re-encrypting and reloading it are not modelled.
- SetChatAccount, VerifyAccountPassword, GetVerifiedWalletAccount, partial account keys and the address book of names, colours, positions and clocks.
- Account rows that sit beside the keypairs (watch-only accounts) are in the tables but no operation on them alone is modelled.
- SQL transactions, drivers, JSON columns, row scanning, the join with the chats table and pinned columns: a statement is one step on a map.
- ActivityPages.BuildQuery: the column list of the SELECT is cut short; conditions, order and limit are there with their text.
- Image rectangles have a non-negative origin; pixels and JPEG bytes are arbitrary functions of image and quality.
- ImageSizes.DerivedAtLeast: quotients are exact; floating-point rounding at the boundary is not modelled.
- Resize, ShrinkOnly, cropping, circles and QR codes only add easy members.
- Several Updates of one chain at the same time, the order of two handlings on different workers and the aggregator's counters and cache.
- Registration, replacement and Stop of chains in the blockchain health manager: the set of chains is fixed in a run.
- The downloader and the health protocol are step relations over values, not goroutines over heap objects; HTTP, files and tickers are steps that may happen at any time.
- IpfsProgress.LateGetCanPanic: states that a panic is possible, since another schedule of the same calls may be lucky.
- Hystrix: timeouts, thresholds and functors that outlive their circuit; a circuit runs its functor once or rejects it.
- Log levels are numbers; loggers, cores and the level of the wrapped core beyond its threshold.
- Everything else in the repository: services, messaging, wallet, node wiring, configuration, contracts.
