# Card proxy: a verified model of the tokenizer and its key lifecycle

The card proxy replaces card numbers by tokens. A number is encrypted under a data key (DEK);
every DEK is stored encrypted under a master key (KEK); a KEK is assembled from three parts kept
in three places (the key keeper, an XML file on every host, the database). Keys are generated,
confirmed, switched, re-encrypted and cleaned up while tokens stay live.

This project states in Dafny what those operations do and proves what they promise:

* **Lifecycle** (`KeyState`, `Lifecycle`): the config table, the key parts, the DEK rows and the
  token rows, and every call of `KeyAPI` and `Tokenizer` as a function from state to state. `None`
  is an exception, after which the transaction is rolled back. `LifecycleSafety`, `TokenSafety`,
  `Installation`, `KekHistory`, `CrashRecovery` and `Dedup` prove the invariants of all runs;
  `KeyCalls` says, by the stores alone, when each call of `KeyAPI` goes through and what it changes;
  `TrueDigests` which row a search returns and what a returned token stands for; `KeyUse` what
  tokenizing does to the DEK rows. `Rotation` proves that a whole key rotation goes through,
  `Confirmation` which keys can be confirmed, `Availability` when a token can be made.
* **The program's own form** (`TokenizerConfig`, `KeyApi`, `Tokenizer`, `DekPool`): classes whose
  methods change the stores in place with the loops of the source, each proved to do exactly what
  the functions above say, including what stays behind when a request fails half-way.
* **Use limits** (`DekLocks`): sessions that lock, use, commit and abort DEK rows, in every
  interleaving.
* **Codecs** (`Hex`, `Base64`, `Padding`, `Aes`, `CryptoSuite`): the buffer loops against recursive
  definitions, and these against the formats, byte by byte. AES is a record of two functions of which only `dec(k, enc(k, b)) == b` is used, and
  SHA-256 is any function to 32 bytes; `CryptoSuite.ToyCipher` shows that the law can be met.
  `EndToEnd` puts codecs and lifecycle together, from an installation through any run;
  `LostNumber` runs one installation into what rehashing breaks.
* **Key keeper replicas** (`KeeperWire`, `KeyKeeper`, `KeeperItems`, `KeeperRuns`): one node, its
  wire format, the cluster, and what its runs keep. `ReplicatedSite`, with `KeyViews`, puts the cluster in the place
  of the lifecycle's one store of part 1: every call is served through some node, and tokens stay
  readable through every node.
* **The re-encryption driver** (`KeyProc`, `DriverRuns`): its batches, its loop, and its runs while
  others go on calling.
* **Smaller algorithms** (`ConfPatch`, `ConfigNames`, `Luhn`, `TcpSocket`, `ReplaceStr`).

Random draws, clocks, passwords and the answers of other processes are parameters. A call that
contacts other processes takes the number of requests answered before one fails, so that every
crash point is covered. Every call reads fresh configuration.

Where the code and its surroundings disagree, the code is followed:

* `confirm_component` with an explicit version still acts on the target version
  (`keyapi/keyapi_logic.cpp:86-88`): `Confirmation.ConfirmActsOnTarget` for all inputs,
  `EndToEnd.ExplicitVersionIgnored` at one.
* `rehash_tokens` digests the packed block and not the number (`keyapi/keyapi_logic.cpp:372-374`),
  so deduplication is proved for runs without it. `Dedup.RehashFindsExactly` says which numbers it
  leaves findable, and `LostNumber.RehashedNumberStoredTwice` gives a run that stores one twice.
* The key keeper's merge is "peer wins": it compares item ids with peer addresses
  (`keykeeper2/key_keeper_logic.cpp:126-128`). `KeyKeeperNode.NewestWinsExactly` says when the
  newest item wins all the same, `KeyKeeperNode.OlderItemWins` and `KeeperRuns.StalePartComesBack`
  that it need not, and `KeeperRuns.OutlivesExactly` when a key part cannot be lost this way.
* Card mode accepts any text of hexadecimal digits but reads back only its leading decimal digits:
  `CryptoSuite.CardKeepsExactlyDigits`, `CryptoSuite.LetterIsLost` at "1A".
* The vault takes a text of any length but its column holds what 7119 bytes give:
  `CryptoSuite.FitsColumnExactly`, `CryptoSuite.ColumnOverflows` at 7120.
* A snapshot of more than a billion items loses items on the way to a peer without an error:
  `KeeperWire.DecodeEncode`, `KeeperWire.OneItemTooMany` at a billion and one.
* Should two parts of a generated key be equal, the later one is always taken for the earlier one,
  and no run confirms the key until it is generated anew; with different parts some run does:
  `Confirmation.ConfirmableExactly`, `EndToEnd.EqualPartsUnconfirmed` from an installation. With
  different parts a rotation always completes: `Rotation.RotationCompletes`.
* With settings that allow no new key, or a minimum of 0, an empty pool makes the program divide by
  zero: `DekPool.EmptyListExactly`, `EndToEnd.FirstCallDividesByZero` from an installation.
* A list kept from the call before can hold spent or expired rows only and still count as
  sufficient; then the retry loop never ends: `DekPool.ObtainableExactly` and
  `Availability.CreatableExactly` give the exact condition. get_token meets it when its keys expire
  between its two calls: `Availability.SecondCallExactly`, `EndToEnd.SecondCallStuck` from an
  installation, `DekPool.KeptListMissesRow` with a selectable row in the table.
* With a repeated id in a host's list, a set changes the first item while the host reads the last:
  `ConfPatch.SetIsSeen`, `ConfPatch.RepeatedIdHidesSet` at two items.

## Model

| member | source | states |
|---|---|---|
| TokenSafety.DetokenizeUndoesTokenize | xxcommon/tokenizer.cpp:634-689 | after a tokenize call that made a row, any run that does not remove the token leaves every host detokenizing it to the text it was created from |
| TokenSafety.TokensStayReadable | keyapi/keyapi_logic.cpp:134-514 | no run of calls, completed, refused or stopped half-way, changes what any host reads for a live token that the run does not remove |
| TokenSafety.LiveTokensReadable | xxcommon/tokenizer.cpp:669-689 | in a good state every live token is readable and every host reads the same |
| TokenSafety.NewTokenReadsBack | xxcommon/tokenizer.cpp:634-667 | a token just created reads back as its text on every host |
| TokenSafety.RunKeeps | keyapi/keyapi_logic.cpp:104-514 | every state a run reaches satisfies the invariant |
| TokenSafety.NextKeeps | keyapi/keyapi_logic.cpp:104-514 | every single call keeps the invariant, every DEK's content and every stored ciphertext |
| TokenSafety.RemoveTakesOne | xxcommon/tokenizer.h:234-242 | removal takes exactly the rows with the token and nothing else; an unknown token changes nothing |
| TokenSafety.TokenizeAddsRows | xxcommon/tokenizer.h:216-232 | tokenize adds at most one row, under a new id and an unused token, to its own table only |
| TokenSafety.RowStays | xxcommon/tokenizer.cpp:691-704 | no call but its removal takes a token row away |
| LifecycleSafety.GenerateKeeps | keyapi/keyapi_logic.cpp:134-190 | generate_kek keeps the invariant and every DEK readable |
| LifecycleSafety.AbortedGenerateKeeps | keyapi/keyapi_logic.cpp:163-182 | stopping generate_kek after any prefix of its requests, rolled back, keeps the invariant and every DEK readable on every host |
| LifecycleSafety.PlanIsAbove | keyapi/keyapi_logic.cpp:153-160 | a generated version is strictly above every version in the database |
| LifecycleSafety.ConfirmKeeps | keyapi/keyapi_logic.cpp:218-242 | confirming a component keeps the invariant |
| LifecycleSafety.ResetTargetKeeps | keyapi/keyapi_logic.cpp:244-264 | resetting the target keeps the invariant |
| LifecycleSafety.SwitchKekKeeps | keyapi/keyapi_logic.cpp:492-514 | switching the active KEK keeps the invariant |
| LifecycleSafety.ReencryptKeeps | keyapi/keyapi_logic.cpp:417-462 | re-encryption of any id range keeps every DEK's content on every host |
| LifecycleSafety.GenerateHmacKeeps | keyapi/keyapi_logic.cpp:104-132 | a new digest key keeps the invariant, which says that no pool can select its row |
| LifecycleSafety.SwitchHmacKeeps | keyapi/keyapi_logic.cpp:464-490 | switching the digest version keeps the invariant |
| LifecycleSafety.CleanupKeeps | keyapi/keyapi_logic.cpp:289-363 | cleanup keeps the invariant, every DEK and every token |
| LifecycleSafety.AbortedCleanupKeeps | keyapi/keyapi_logic.cpp:266-287 | so does cleanup stopped after any prefix of its requests |
| LifecycleSafety.RehashKeeps | keyapi/keyapi_logic.cpp:365-415 | rehashing keeps the invariant and every ciphertext |
| LifecycleSafety.InsertKeeps | xxcommon/tokenizer.cpp:644-666 | storing a new token keeps the invariant and adds one row that every host reads as the text |
| LifecycleSafety.GeneratePrefix | keyapi/keyapi_logic.cpp:163-182 | after any number of its requests, exactly the first stores in the order of generate_kek hold the new part |
| LifecycleSafety.CleanupPrefix | keyapi/keyapi_logic.cpp:266-287 | after any number of its requests, exactly the first stores are swept |
| Installation.InstalledIsGood | sql/card_proxy_data.sql:26-43 | any three parts that assemble, with the codes their key gives, make an installation that satisfies the invariant |
| Installation.ReachableKeysAreSound | xxcommon/tokenizer.cpp:566-594 | in every reachable state the active version and the version of every DEK row are confirmed and valid on every host, the target is valid on every host, and each row opens to one key everywhere |
| Installation.RowsMoveToConfirmedVersions | xxcommon/tokenizer.cpp:581-594 | a DEK row changes version only by re-encryption, and only to a confirmed version that is valid on every host |
| KekHistory.SwitchNeedsAllComponents | keyapi/keyapi_logic.cpp:499-508 | between generating a version and switching to it each of its three components was presented, in any run, also when version numbers are purged and used again |
| KekHistory.EverySwitchConfirmed | keyapi/keyapi_logic.cpp:492-514 | every switch of a run was preceded by the confirmation of all three components |
| KekHistory.FlagsAlwaysEarned | keyapi/keyapi_logic.cpp:231-237 | in every reachable state a raised check flag belongs to a component presented since its version was generated |
| KekHistory.ConfirmedMeans | keyapi/keyapi_logic.cpp:157-160 | the recursive definition of a confirmed component is the statement about positions in the history |
| CrashRecovery.RetryAfterAbortedGenerate | keyapi/keyapi_logic.cpp:153-182 | retrying generate_kek after it was stopped anywhere gives exactly the state the retry alone would have given |
| CrashRecovery.RetryAfterAbortedCleanup | keyapi/keyapi_logic.cpp:266-340 | the same for cleanup |
| Rotation.RotationCompletes | keyapi/keyapi_logic.cpp:134-514 | from any good state, generating a key of three different parts, presenting each, re-encrypting all rows, switching and cleaning up ends with that version active, every DEK under it with its content unchanged, no other version in any store, and of the digest versions exactly the active one and those of card rows |
| Rotation.UnconfirmedTargetBlocks | xxcommon/tokenizer.cpp:581-594 | until the new version is confirmed, re-encryption and switching are refused on every host |
| KeyCalls.LetInExactly | keyapi/keyapi_logic.cpp:75-94 | a caller is let in exactly with a 64-character password that equals one of the three stored parts of the version the config row names, whose parts assemble; the part is the first that it equals |
| KeyCalls.StrangersAreTurnedAway | keyapi/keyapi_logic.cpp:104-363 | without a part of the active version generate_kek, reset_target_version, generate_hmac, switch_hmac and cleanup change nothing, and the two that contact other processes make no request, also when they would be stopped later |
| KeyCalls.StrangersToTheTarget | keyapi/keyapi_logic.cpp:218-242 | without a part of the target confirm_component and switch_kek change nothing |
| KeyCalls.ValidExactly | xxcommon/tokenizer.cpp:287-318 | a version is valid on a host exactly when the three stored parts assemble to a key that encrypts the stored phrase to the stored code |
| KeyCalls.TargetExactly | xxcommon/tokenizer.cpp:566-594 | re-encryption has a version to move to exactly when the active version can be read and the target, or without one the active version, has its three flags at "1" |
| KeyCalls.GenerateKekExactly | keyapi/keyapi_logic.cpp:134-190 | generate_kek goes through exactly for a caller with a part of the active version and new parts that assemble to a key that encrypts the phrase; the version is one above all known ones, part 1 is in the key keeper, part 2 on every host, six rows of the config table are written, with no flag up and the new version as the target, and nothing else changes |
| KeyCalls.StoppedGenerateExactly | keyapi/keyapi_logic.cpp:163-182 | stopped after some requests it has put the parts into exactly that many stores, the key keeper first, and written no row |
| KeyCalls.ConfirmExactly | keyapi/keyapi_logic.cpp:218-242 | confirm_component goes through exactly for a caller with a part of the target, raises the flag of the first part the password equals, and changes nothing else |
| KeyCalls.ResetTargetExactly | keyapi/keyapi_logic.cpp:244-264 | reset_target_version goes through exactly for a caller with a part of the active version and a wanted version that is valid on the host with all three flags up; the target row then holds the wanted version, and nothing else changes |
| KeyCalls.ResetThenReencrypt | keyapi/keyapi_logic.cpp:244-264 | after it one reencrypt_deks over all ids, on any host, goes through, leaves every row under the wanted version and reports how many moved |
| KeyCalls.SwitchKekExactly | keyapi/keyapi_logic.cpp:492-514 | switch_kek goes through exactly for a caller with a part of the target, which must not be the active version and must be valid with its flags up; the active version row then holds the target, and nothing else changes |
| KeyCalls.ReencryptExactly | keyapi/keyapi_logic.cpp:417-462 | reencrypt_deks goes through exactly when each row of the range behind the version can be opened and encrypted anew; these rows and no others have moved, each with its content encrypted under the new key and its counters as they were, and their number is reported |
| KeyCalls.GenerateHmacExactly | keyapi/keyapi_logic.cpp:104-132 | generate_hmac, for a caller with a part of the active version, adds one row no pool selects, under the active version, names it by the next digest version, and every host then reads the key drawn; nothing else changes |
| KeyCalls.SwitchHmacExactly | keyapi/keyapi_logic.cpp:464-490 | switch_hmac goes through exactly for such a caller when a larger digest version is named than the active one; it takes the largest and changes nothing else |
| KeyCalls.RehashExactly | keyapi/keyapi_logic.cpp:365-415 | rehash_tokens gives all card rows of the range that are not under the active digest version, or none, the digest of their decrypted block under it, and changes nothing else |
| KeyCalls.CleanupExactly | keyapi/keyapi_logic.cpp:289-363 | cleanup goes through exactly for a caller with a part of the active version when that is the target and the version of every DEK row; one version is left in every store, and a digest version stays named exactly when it is the active one or that of a card row |
| KeyCalls.StoppedCleanupExactly | keyapi/keyapi_logic.cpp:266-287 | stopped after some requests it has swept exactly that many stores, the key keeper first, and deleted no row |
| KeyCalls.DataKeyExactly | xxcommon/tokenizer.cpp:759-765 | a DEK is usable on a host exactly when its row opens to 32 bytes under the valid key of its version |
| KeyCalls.DigestKeyExactly | xxcommon/tokenizer.cpp:320-355 | a digest key is loaded exactly when the row its name points to opens under the assembled key of its version |
| Confirmation.ConfirmableExactly | keyapi/keyapi_logic.cpp:84-94 | a version just generated is confirmed by some run that does not generate it again exactly when its three parts are passwords of 64 characters and differ pairwise |
| EndToEnd.EqualPartsUnconfirmed | keyapi/keyapi_logic.cpp:84-94 | from every installation, a version generated with part 1 as part 2 becomes the target and is confirmed by no run that does not generate it anew |
| Confirmation.RunKeepsStuck | keyapi/keyapi_logic.cpp:218-242 | over any run that does not generate the version again the flag of a part equal to an earlier one never goes up, even when the version is purged or its parts are swept |
| Confirmation.ConfirmActsOnTarget | keyapi/keyapi_logic.cpp:86-88 | with an explicit version the call does what it does without one; it raises a flag of that version exactly when it succeeds and the version is the target, and none of any other version |
| Rotation.NewHmacIsAbove | keyapi/keyapi_logic.cpp:116-126 | a new digest version is above every known one, names a row no pool selects, and touches no other name |
| Rotation.SwitchHmacMovesUp | keyapi/keyapi_logic.cpp:464-490 | a digest switch goes to the largest known version, strictly upwards, and changes nothing else |
| Rotation.HmacVersionNeverFalls | keyapi/keyapi_logic.cpp:464-490 | over any run the active digest version never falls |
| Dedup.RunKeepsDedup | xxcommon/tokenizer.cpp:608-667 | over runs of the card service without rehashing every long number stays findable and stored once |
| Dedup.OneLiveRowPerNumber | xxcommon/tokenizer.cpp:634-667 | in every state of such a run two live rows never hold the same number |
| Dedup.LiveNumberIsFound | xxcommon/tokenizer.cpp:608-632 | search finds every live number on every host, whatever digest version its row was stored under |
| Dedup.TokenizeAgain | xxcommon/tokenizer.cpp:639-643 | tokenizing a live number again returns the token search finds and changes nothing |
| Dedup.SearchMisses | xxcommon/tokenizer.cpp:608-632 | search comes back empty exactly when no row carries a digest of the text under a known version |
| Dedup.UsedHmacsKept | keyapi/keyapi_logic.cpp:342-361 | no call drops a digest version that a card row uses |
| Dedup.UsedHmacKeysSame | xxcommon/tokenizer.cpp:320-355 | no call changes the digest key of a version in use |
| Dedup.ShortTextIsNotFound | xxcommon/tokenizer.cpp:646-652 | a text below ten characters just stored is found again exactly when its random digest happens to be a keyed digest of it |
| Dedup.RehashFindsExactly | keyapi/keyapi_logic.cpp:365-415 | told before the call: after rehash_tokens a search for a text is empty exactly when no row off the range carries a digest of it and no converted row's block has one |
| Dedup.RehashLosesNumber | keyapi/keyapi_logic.cpp:365-376 | a number that only one rehashed row leads to is lost exactly when the digest of its packed block is not by chance a digest of the number |
| LostNumber.RehashedNumberStoredTwice | keyapi/keyapi_logic.cpp:365-415 | one run from an installation: a number is stored and found, rehashed and not found, tokenized again and then held by two live rows |
| LostNumber.RehashGoesThrough | keyapi/keyapi_logic.cpp:378-415 | in every good state rehash_tokens cannot fail |
| Dedup.EveryTokenReadsBack | xxcommon/tokenizer.cpp:634-689 | over runs of the card service, unless two texts share a digest, every token tokenize returns, new or found, is read back by every host as what was tokenized, after any further run that does not remove it |
| Dedup.FoundTokenReadsBack | xxcommon/tokenizer.cpp:608-632 | a token that search found reads back as the text searched for, on every host, unless another text shares its digest |
| TrueDigests.SearchReturns | xxcommon/tokenizer.h:204-214 | for both tables: the token a search returns is that of the oldest row whose digest is the keyed digest of the whole text under the first version, the active one before the others in ascending order, that has such a row |
| TrueDigests.SearchIsEmpty | xxcommon/tokenizer.cpp:608-632 | for both tables: a search never fails, and comes back empty exactly when no row has such a digest under any known version |
| TrueDigests.TokenRowExactly | xxcommon/tokenizer.cpp:669-704 | a token is looked up by the only row that has it, and with none or several the lookup fails |
| TrueDigests.NewRowDigest | xxcommon/tokenizer.cpp:644-666 | a new row carries the active digest version and, for ten characters or more, its keyed digest of the whole text, else the random one; nothing else in the two tables changes |
| TrueDigests.RunKeepsDigests | xxcommon/tokenizer.cpp:644-652 | over runs without rehashing each stored text of ten characters or more carries the digest of the whole of it under one of the keys made |
| TrueDigests.FoundStandsForText | xxcommon/tokenizer.cpp:608-632 | a token that search found is read back by every host as the text, when no other stored text has a digest of it under the keys made |
| TrueDigests.EveryTokenStandsForText | xxcommon/tokenizer.cpp:634-689 | for both tables: when the digest keys tell the stored texts apart from the text, every token tokenize returns for it, new or found, is read back by every host as that text after any further run that does not remove it |
| KeyProc.BatchesPartition | service/application.py:117-125 | every id of the range is in exactly one batch |
| KeyProc.ProcessConverts | service/card_proxy_keyproc.py:102-106 | any list of batches in any order, nobody else at work: no batch fails, every DEK keeps its content, exactly the covered rows move to the target, and the total is that of the rows that were off it |
| KeyProc.Drive | service/card_proxy_keyproc.py:89-114 | the driver loop for any calls: after each batch the target is read from the state reached, and at each exit the states, the counts and the total are those of the calls made |
| KeyProc.TargetRead | service/card_proxy_keyproc.py:77-87 | the driver reads a missing or empty target as version 0 |
| KeyProc.DriveConverts | service/card_proxy_keyproc.py:95-112 | over any shuffle with a fixed confirmed target no batch fails, the total at any exit is the rows that were off target, and at the end none in the range is |
| DriverRuns.BusyDriveConverts | service/card_proxy_keyproc.py:89-114 | the driver's calls over any batches, with any other calls before, between and after them that keep the target: no batch can fail, no key changes, every covered row that was there at the start is on the target, the total is the number of rows the batches took, these were off the target at the start or are newer, and a covered row that was off the target and that no batch took is one another call re-encrypted |
| DriverRuns.FinishedDriveMovesAll | service/card_proxy_keyproc.py:46-66 | when the driver has gone through the batches of its task, in any order and with such calls in between, every DEK row that existed at its start is on the target, and it took all that were off it but those other calls moved |
| DriverRuns.TargetsAlwaysAgree | service/card_proxy_keyproc.py:77-87 | in every state a run reaches from an installation, or from any state whose active and target version can be read, the server converts to the version the driver reads, or refuses because that version is not confirmed |
| DriverRuns.TaskExactly | service/card_proxy_keyproc.py:46-66 | in every such state the driver finds a task exactly when the server has a confirmed target and a row is off it, and the task is for that target |
| EndToEnd.DriverServesTarget | service/card_proxy_keyproc.py:46-87 | both from an installation with the real codecs |
| EndToEnd.TextSurvives | xxcommon/tokenizer.cpp:634-689 | with the real codecs, from the installation and after any run: a card number of decimal digits, or any vault text, comes back unchanged after any further run that does not remove it |
| EndToEnd.TextSurvivesReplicated | xxcommon/tokenizer.cpp:42-113 | from an installation whose key keepers all hear of each request: after any calls through any nodes, a number or vault text made into a token through any node comes back unchanged on every host through every node after any further such calls that do not remove it |
| EndToEnd.NumbersStoredOnce | xxcommon/tokenizer.cpp:608-667 | with the real codecs, from the installation, over runs of the card service no card number is stored twice |
| EndToEnd.CardTokenReadsBack | xxcommon/tokenizer.cpp:634-689 | with the real codecs, from the installation, over runs of the card service: every token returned for a card number, new or found, reads back as that number, unless another row has a digest of it |
| EndToEnd.TokenStandsForText | xxcommon/tokenizer.cpp:634-689 | the same from any installation with the real codecs, for card numbers and for vault texts |
| EndToEnd.TokenizeAvailable | xxcommon/tokenizer.cpp:634-667 | in every good state, on every host, with positive limits: a call of a new Tokenizer succeeds for every draw with a row choice, two spare values and an unused token, so the lifecycle never locks up |
| EndToEnd.ExplicitVersionIgnored | keyapi/keyapi_logic.cpp:86-88 | from an installation with version 1 generated, a call that names version 0 or 7 raises a flag of version 1 and none of the version named |
| Availability.CreateSucceedsExactly | xxcommon/tokenizer.cpp:644-666 | in a good state, with an unused token, a row is made exactly when the pool gives a key |
| Availability.CreatableExactly | xxcommon/dek_pool.cpp:50-67 | some choices of the generator let a host make a token exactly when its pool, new or kept from earlier calls, has a selectable row at hand |
| EndToEnd.StartIsGood | sql/card_proxy_data.sql:26-43 | the installed state satisfies the invariant with the real codecs |
| EndToEnd.SomeInstallationExists | sql/card_proxy_data.sql:26-43 | there is a cipher that meets the law and an installation that satisfies the invariant |
| LoadedConfig.TokenizerConfig.Reload | xxcommon/tokenizer.cpp:461-503 | reloading makes the loaded fields those of the given state, whatever they were |
| LoadedConfig.TokenizerConfig.AssembleMasterKeys | xxcommon/tokenizer.cpp:224-285 | the loop assembles exactly the versions whose three parts are present and well formed, and marks the valid ones |
| LoadedConfig.TokenizerConfig.LoadHmacKeys | xxcommon/tokenizer.cpp:320-355 | the loop loads exactly the digest keys that can be opened |
| LoadedConfig.TokenizerConfig.GetLastVersion | xxcommon/tokenizer.cpp:573-579 | the largest version, or an error when there is none |
| LoadedConfig.TokenizerConfig.GetHmacVersions | xxcommon/tokenizer.cpp:448-459 | the active version first, the other loaded ones after it in ascending order |
| LoadedConfig.TokenizerConfig.QueriesAgree | xxcommon/tokenizer.cpp:403-556 | what the loaded fields answer is what the state says |
| KeyService.KeyApi.KekAuth | keyapi/keyapi_logic.cpp:75-94 | the version and the first matching part, 0 for none, an error for a missing part or a password of another length |
| KeyService.KeyApi.GenerateKek | keyapi/keyapi_logic.cpp:134-190 | on success the state of the specification; on any failure, also between two requests, the state of the stopped call with the database as before |
| KeyService.KeyApi.SendParts | keyapi/keyapi_logic.cpp:163-182 | the requests made, in order, up to the one that fails |
| KeyService.KeyApi.ConfirmComponent | keyapi/keyapi_logic.cpp:218-242 | succeeds exactly when, and does exactly what, the specification says |
| KeyService.KeyApi.ResetTargetVersion | keyapi/keyapi_logic.cpp:244-264 | likewise |
| KeyService.KeyApi.SwitchKek | keyapi/keyapi_logic.cpp:492-514 | likewise |
| KeyService.KeyApi.ReencryptDek | keyapi/keyapi_logic.cpp:417-427 | one row moved under the target version, or an error |
| KeyService.KeyApi.ReencryptDeks | keyapi/keyapi_logic.cpp:429-462 | all rows of the range off the target converted and counted, or none |
| KeyService.KeyApi.RehashTokens | keyapi/keyapi_logic.cpp:378-415 | all card rows of the range off the active digest version rehashed, or none |
| KeyService.KeyApi.GenerateHmac | keyapi/keyapi_logic.cpp:104-132 | the new key row and its name, one above the largest known version |
| KeyService.KeyApi.SwitchHmac | keyapi/keyapi_logic.cpp:464-490 | the largest digest version becomes active, refused when it already is |
| KeyService.KeyApi.Cleanup | keyapi/keyapi_logic.cpp:289-363 | on success the state of the specification; on any failure the database as before and exactly the answered requests done |
| KeyService.KeyApi.PurgeKeks | keyapi/keyapi_logic.cpp:317-338 | the rows of every other version go, refused exactly when one of them is in use |
| KeyService.KeyApi.PurgeHmacs | keyapi/keyapi_logic.cpp:342-361 | exactly the loaded digest versions go that are not active and no card row uses |
| KeyService.LastOf | keyapi/keyapi_logic.cpp:116-119 | the largest of the listed versions |
| TokenService.Tokenizer.Search | xxcommon/tokenizer.cpp:608-632 | the token under the first digest version that hits, the active one first; empty when none does |
| TokenService.Tokenizer.Tokenize | xxcommon/tokenizer.cpp:634-667 | returns the duplicate's token or creates a row with the pool kept from earlier calls, exactly as the specification says, and then keeps the pool; fails exactly when the specification does, changing nothing |
| TokenService.TokenizeIsLifecycle | xxcommon/tokenizer.cpp:634-667 | with a pool under the active version one call of a Tokenizer is a call of the lifecycle for some draw, and the pool is still one under the active version |
| TokenService.Tokenizer.TakePool | xxcommon/tokenizer.cpp:776-789 | the pool at hand, or a new one with an empty list under the active version |
| TokenService.CardCrypter.GetToken | xxcommon/card_crypter.cpp:81-104 | both tokens of a card from one Tokenizer, the code first, with one pool; on any failure neither is stored |
| TokenService.TokensAreSteps | xxcommon/card_crypter.cpp:81-104 | get_token is two calls of the lifecycle, one without a code |
| TokenService.Tokenizer.Detokenize | xxcommon/tokenizer.cpp:669-689 | the text of the one row with the token, or an error |
| TokenService.Tokenizer.Remove | xxcommon/tokenizer.cpp:691-704 | removes the row and says whether there was one |
| TokenService.Tokenizer.UseDek | xxcommon/tokenizer.cpp:798-800 | one more use of the row, which ends its life when the limit is reached |
| TokenService.Tokenizer.GenerateTokenString | xxcommon/tokenizer.cpp:706-719 | the first candidate that no row of the table has |
| TokenService.CreateIsInsert | xxcommon/tokenizer.cpp:791-802 | every successful supply of random values is a draw the lifecycle theorems range over |
| DekPool.EmptyListExactly | xxcommon/dek_pool.cpp:54-55 | from whatever list a round starts, the random index is taken modulo zero exactly when no stored row is selectable and either the listed uses reach the minimum on an empty list or new rows have no use or no life |
| DekPool.ObtainableExactly | xxcommon/dek_pool.cpp:50-67 | some draws end the retry loop with a row exactly when the kept list holds a selectable row, or is refilled and then does |
| DekPool.KeptListMissesRow | xxcommon/dek_pool.cpp:83-96 | with settings 5, 1, 1: a selectable row that a kept list, of one row whose life has just ended, never reaches |
| Availability.SecondCallExactly | xxcommon/card_crypter.cpp:81-104 | in any good state without selectable rows, get_token around the end of life of the keys its first tokenize call made: the second call can get a row exactly when two fresh rows are too few for the minimum, though a new Tokenizer always could |
| EndToEnd.SecondCallStuck | xxcommon/card_crypter.cpp:81-104 | the failing case from every installation with the real codecs |
| EndToEnd.FirstCallDividesByZero | xxcommon/dek_pool.cpp:54-55 | from every installation, with a minimum of 0 or keys without use or life, the first call takes its random index modulo zero |
| DekPool.PositiveLimitsNeverEmpty | xxcommon/dek_pool.cpp:83-96 | with positive limits the list is never empty |
| DekPool.ObtainedIsDrawn | xxcommon/dek_pool.cpp:50-67 | a row obtained is selectable and the rows added are those of some list of new keys |
| DekPool.Pool.GetActiveDataKey | xxcommon/dek_pool.cpp:50-67 | the retry loop gives the row the recursive definition gives |
| DekPool.Pool.GenerateEnoughDeks | xxcommon/dek_pool.cpp:83-96 | two new rows and a new list exactly when too few uses are left |
| DekPool.Pool.GetUnusedCount | xxcommon/dek_pool.h:30-38 | the sum of the uses left on the listed rows |
| DekPool.Pool.FillActiveDeks | xxcommon/dek_pool.cpp:69-81 | the list holds exactly the selectable rows |
| DekPool.Pool.GenerateNewDataKey | xxcommon/dek_pool.cpp:98-119 | one unused row with the configured limit and life, or an error and no row |
| KeyUse.LifeIsWholeDays | xxcommon/dek_pool.cpp:98-119 | a new key lives for the configured days of 86400 seconds |
| KeyUse.AddsInOrder | xxcommon/dek_pool.cpp:98-119 | new rows hold the values drawn, encrypted under the master key, with the configured limit and no uses, under ascending new ids; no other row changes |
| KeyUse.KeysAfterInsert | xxcommon/tokenizer.cpp:791-802 | tokenizing uses exactly one row, which had uses and life left, once, and ends its life with its last use; besides it only adds rows under the active version |
| KeyUse.EveryRowCanBeDrawn | xxcommon/dek_pool.cpp:56-60 | each selectable row of the list in force is drawn by some random number |
| KeyUse.UnusedAdds | xxcommon/dek_pool.h:30-38 | the uses left on two lists are those of the one and of the other, with `KeyUse.UnusedOfOne` for one row |
| KeyUse.FreshTokenExactly | xxcommon/tokenizer.cpp:706-719 | a new token is the first candidate that no row of the table has |
| DekLocks.UsesStayInBudget | xxcommon/dek_pool.cpp:50-67 | under every interleaving of sessions the committed encryptions under a row equal its counter and never exceed its limit |
| DekLocks.OpenUsesStayInBudget | xxcommon/tokenizer.cpp:791-802 | nor do they together with the uncommitted ones, which only one session can have |
| DekLocks.DigestRowsNeverUsed | xxcommon/dek_pool.cpp:98-119 | a digest key row, with limit 0, is never selected and never used |
| DekLocks.CommittedUsesStay | xxcommon/dek_pool.cpp:50-67 | no step takes a committed use back or changes a limit |
| DekLocks.NextKeeps | xxcommon/dek_pool.cpp:50-119 | every step of every session keeps the lock and budget invariant |
| DekLocks.FillExactly | xxcommon/dek_pool.cpp:69-81 | a list is filled with exactly the rows the session sees that have a use and life left |
| DekLocks.GenerateExactly | xxcommon/dek_pool.cpp:98-119 | a new row is unused, has a new id, and is seen by its session alone until the commit |
| DekLocks.LockExactly | xxcommon/dek_pool.cpp:56-66 | a row is locked exactly when no other open session holds it, as it is at that moment, and selected exactly when it has a use and life left |
| DekLocks.UseExactly | xxcommon/tokenizer.cpp:791-802 | a use counts once on the locked copy and once among the uses to be committed |
| DekLocks.EndsExactly | xxcommon/dek_pool.cpp:50-67 | a commit stores the copies of the session and counts its uses, an abort drops both, and either frees the rows |
| Hex.StringToHexString | xxutils/utils.cpp:40-58 | the loop writes the recursive encoding, with separator spaces or without |
| Hex.StringFromHexString | xxutils/utils.cpp:60-89 | the loop reads it in either mode, failing exactly on a wrong length, a foreign digit or a wrong separator |
| Hex.DecodeEncode | xxutils/utils.cpp:40-89 | decoding undoes encoding in either case of letters |
| Hex.DecodeEncodeSpaced | xxutils/utils.cpp:40-89 | with spaces, decoding undoes encoding |
| Hex.EncodeDecode | xxutils/utils.cpp:40-89 | encoding undoes decoding up to the case of the digits |
| Hex.ByteAsText | xxutils/utils.cpp:40-58 | byte k is written at 2k as its high and its low half, by the table of sixteen digits in either case |
| Hex.ByteAsSpacedText | xxutils/utils.cpp:40-58 | with spaces it is written at 3k, behind a space unless it is the first |
| Hex.SeparatorsAre | xxutils/utils.cpp:60-89 | between two bytes only a space or a zero character is accepted |
| Base64.CheckBase64 | xxutils/utils.cpp:131-146 | the loop accepts exactly the texts without a foreign or misplaced character |
| Base64.DecodeEncode | xxutils/utils.cpp:91-167 | whatever is encoded passes the checks and decodes to itself |
| Base64.EncodedLength | xxutils/utils.cpp:95 | the encoded size is the one the program allocates |
| Base64.DecodedLength | xxutils/utils.cpp:117-129 | the decoded size is the one b64_decoded_size computes |
| Base64.EncodedByThrees | xxutils/utils.cpp:91-115 | three bytes at a time are encoded by themselves, in four characters |
| Base64.BytesAsSymbols | xxutils/utils.cpp:91-115 | one to three bytes are one number, filled up with zero bits, written in digits of six bits by the table of RFC 4648, and filled up with "=" |
| Base64.ValidExactly | xxutils/utils.cpp:131-146 | exactly the texts of whole groups of symbols pass the check, of which the last may end in "=" or "==" |
| Base64.SymbolsAre | xxutils/utils.cpp:131-146 | the symbols are the 64 of the table and no others |
| Base64.DecodedGroup | xxutils/utils.cpp:148-167 | a group that passes stands for the bytes of its number, the bits left over ignored |
| Base64.DecodedByGroups | xxutils/utils.cpp:148-167 | a longer text is decoded group by group |
| Padding.BcdRoundTrip | xxutils/aes_crypter.cpp:163-190 | whatever was packed unpacks to its longest digit prefix, for every padding |
| Padding.BcdEncodes | xxutils/aes_crypter.cpp:178-190 | 1 to 32 hexadecimal digits always pack, into one block |
| Padding.BcdDecodeLoop | xxutils/aes_crypter.cpp:163-176 | the scanning loop gives the longest digit prefix |
| Padding.BlockIsNotText | xxutils/aes_crypter.cpp:178-190 | the packed block of a number is never the bytes of the number |
| Padding.Pkcs7Inverse | xxutils/aes_crypter.cpp:192-212 | decoding gives a text exactly for its own encoding (section 6.3 of RFC 5652) |
| Padding.Pkcs7DecodeLoop | xxutils/aes_crypter.cpp:192-205 | the loop from the end accepts exactly the padded texts and cuts the padding |
| Padding.BcdLayout | xxutils/aes_crypter.cpp:178-190 | half byte i of a packed number is its digit i, behind the number stands 15, behind that the random digits |
| Padding.BcdRefusesExactly | xxutils/aes_crypter.cpp:178-190 | exactly texts of more than 32 characters or with a foreign character are refused |
| Padding.BcdReads | xxutils/aes_crypter.cpp:163-176 | any block is read as the digits of its half bytes up to the first above 9, and only blocks or nothing at all are accepted |
| Padding.Pkcs7Layout | xxutils/aes_crypter.cpp:207-212 | 1 to 16 bytes are added up to a multiple of 16, each of them their number |
| Aes.EncryptLoop | xxutils/aes_crypter.cpp:29-70 | the buffer loop computes the recursive ECB and CBC definitions, and refuses exactly empty and unaligned input |
| Aes.DecryptLoop | xxutils/aes_crypter.cpp:72-110 | the same for decryption |
| Aes.CbcEquations | xxutils/aes_crypter.cpp:42-59 | block by block the equations of section 6.2 of NIST SP 800-38A |
| Aes.EcbEquations | xxutils/aes_crypter.cpp:42-59 | those of section 6.1 |
| Aes.DecryptEncrypt | xxutils/aes_crypter.cpp:29-110 | decryption inverts encryption for every non-empty aligned input in both modes |
| Aes.MemXor | xxutils/aes_crypter.cpp:214-223 | a stretch of the buffer combined, the rest unchanged |
| Aes.XorBuffer | xxutils/aes_crypter.cpp:138-146 | the whole buffer combined, or an error and no change when the sizes differ |
| Aes.XorBytesUndo | xxutils/aes_crypter.cpp:214-223 | combining twice gives the original back |
| Aes.HmacSha256Digest | xxutils/aes_crypter.cpp:148-161 | the digest is HMAC of RFC 2104 over the given hash |
| Aes.HmacLayout | xxutils/aes_crypter.cpp:148-161 | byte by byte: the inner text starts with the key, padded with zeros to 64 bytes or hashed first when it is longer, combined with 0x36, the outer one with the key combined with 0x5c |
| Aes.XorByteBits | xxutils/aes_crypter.cpp:214-223 | the lowest bit of a combination is set when exactly one of the two is, and the others are those of the halves |
| Aes.FirstBlock | xxutils/aes_crypter.cpp:29-70 | the first block is encrypted as it is in both modes: the chaining starts from zeros |
| Aes.CbcDecryptEquations | xxutils/aes_crypter.cpp:72-110 | any aligned text is decrypted block by block, each combined with the cipher block before it |
| Aes.EcbDecryptEquations | xxutils/aes_crypter.cpp:72-110 | or, unchained, each by itself |
| CryptoSuite.RealSuiteIsLawful | xxcommon/tokenizer.cpp:721-749 | the codecs of the program undo each other, for every cipher that meets the law and every hash |
| CryptoSuite.CardRoundTrip | xxcommon/tokenizer.cpp:721-749 | every text of 1 to 32 digits is stored and comes back, for every padding and key |
| CryptoSuite.VaultRoundTrip | xxcommon/tokenizer.cpp:721-749 | every byte string, the empty one too, is stored and comes back in the vault |
| CryptoSuite.CardStored | xxcommon/tokenizer.cpp:735-741 | a card number is stored as one block encrypted by itself, in 24 characters |
| CryptoSuite.VaultStored | xxcommon/tokenizer.cpp:735-741 | a vault text is padded and chained: each block but the first is combined with the one before it |
| CryptoSuite.KeySealed | xxcommon/tokenizer.cpp:751-757 | a DEK is stored as two blocks, each encrypted by itself under the master key |
| CryptoSuite.AssemblesExactly | xxcommon/tokenizer.cpp:363-377 | exactly three parts of 64 hexadecimal digits assemble, to the digest of their 32 bytes combined one by one |
| CryptoSuite.DigestIs | xxcommon/tokenizer.cpp:804-808 | the digest of a text is HMAC-SHA256 as base 64, here with the two pads written out for a key of 32 bytes |
| CryptoSuite.CardKeepsExactlyDigits | xxcommon/tokenizer.cpp:721-733 | card mode gives a stored text back unchanged exactly when it consists of decimal digits |
| CryptoSuite.FitsColumnExactly | sql/card_proxy_schema.sql:10-37 | what is stored for a card number always fits its column, for a vault text exactly up to 7119 bytes |
| CryptoSuite.CardReadsPrefix | xxcommon/tokenizer.cpp:721-733 | any text of 1 to 32 hexadecimal digits is stored in card mode and comes back as its longest decimal prefix |
| CryptoSuite.LetterIsLost | xxcommon/tokenizer.cpp:721-733 | "1A" is stored and comes back as "1" |
| CryptoSuite.ColumnOverflows | sql/card_proxy_schema.sql:10-37 | a vault text of 7120 bytes is stored as 9516 characters |
| CryptoSuite.PartsCommute | xxcommon/tokenizer.cpp:363-377 | the master key does not depend on the order of its parts |
| KeeperWire.DecodeEncode | keykeeper2/key_keeper_logic.cpp:143-155 | a snapshot written as numbered parameters and read back is the same, to the millisecond, for every order of the parameters, exactly when it has at most a billion items |
| KeeperWire.OneItemTooMany | keykeeper2/key_keeper_logic.cpp:143-155 | a snapshot of a billion items and one is taken without an error, and its last item does not arrive |
| KeeperWire.FindIdVersions | keykeeper2/key_keeper_logic.cpp:228-244 | the loop lists -1 for a plain id and then the numbers of one to nine digits |
| KeeperWire.VersionsAre | keykeeper2/key_keeper_logic.cpp:228-244 | from an encoded snapshot the receiver makes out exactly the numbers below a billion |
| KeeperWire.ParseFormatTs | keykeeper2/key_keeper_logic.cpp:60-65 | a time written with three decimals reads back as the nearest millisecond |
| KeeperWire.RejectedStays | keykeeper2/key_keeper_logic.cpp:302-313 | one rejected parameter makes the whole write fail |
| KeyKeeperNode.KeyKeeper.DoWrite | keykeeper2/key_keeper_logic.cpp:293-317 | the store becomes the result of reading all items, or stays as it is when one is rejected |
| KeyKeeperNode.KeyKeeper.Set | keykeeper2/key_keeper_logic.cpp:325-334 | set with its checks and the time of the clock |
| KeyKeeperNode.KeyKeeper.Unset | keykeeper2/key_keeper_logic.cpp:336-349 | the item goes; refused for a malformed or unknown id |
| KeyKeeperNode.KeyKeeper.Cleanup | keykeeper2/key_keeper_logic.cpp:351-364 | only the item stays; refused for a malformed or unknown id |
| KeyKeeperNode.KeyKeeper.PushToPeers | keykeeper2/key_keeper_logic.cpp:136-167 | every peer gets the same encoded snapshot, in the order of the list |
| KeyKeeperNode.KeyKeeper.ApplyUpdate | keykeeper2/key_keeper_logic.cpp:118-134 | the loop merges the items by the rule of the code |
| KeyKeeperNode.KeyKeeper.FetchData | keykeeper2/key_keeper_logic.cpp:169-218 | the store after all answers in order, and the peer list without the node's own addresses |
| KeyKeeperNode.KeyKeeper.UpdateDataIfNeeded | keykeeper2/key_keeper_logic.cpp:220-226 | fetches exactly when the interval has passed |
| KeyKeeperNode.FetchIsUnion | keykeeper2/key_keeper_logic.cpp:169-191 | without ids that are addresses, a fetch is the left-to-right union in which the peer wins, and drops no id |
| KeyKeeperNode.LastOfferWins | keykeeper2/key_keeper_logic.cpp:169-191 | in the union every id has what the last answering peer that holds it says, or else what the node had |
| KeyKeeperNode.NewestWinsExactly | keykeeper2/key_keeper_logic.cpp:118-134 | a fetch sets no stored creation time back exactly when, for every id held, the last answering peer that holds it has it from no earlier a time |
| KeyKeeperNode.DataSurvivesExactly | keykeeper2/key_keeper_logic.cpp:118-134 | an item keeps its data through a fetch exactly when the last peer to offer it, if any, offers the same data |
| KeyKeeperNode.OlderItemWins | keykeeper2/key_keeper_logic.cpp:126-132 | an older item of a peer replaces a newer one |
| KeyKeeperNode.OnlyOwnAddressesGo | keykeeper2/key_keeper_logic.cpp:206-216 | a fetch removes exactly the addresses that answer with the node's own name |
| KeeperItems.AtTheLimits | keykeeper2/key_keeper_logic.cpp:15-16 | ids have 1 to 40 characters and data up to 2000; one more is refused, and so is a foreign character |
| KeeperItems.IdsAre | keykeeper2/key_keeper_logic.cpp:15 | the characters of an id are the digits, the letters and the underscore, by their codes |
| KeeperItems.NumberedExactly | keykeeper2/key_keeper_logic.cpp:17 | a numbered id is "id_" and one to nine digits |
| KeeperItems.RoundedIsNearest | keykeeper2/key_keeper_logic.cpp:60-65 | a time is kept to the nearest millisecond |
| KeeperItems.KnownTime | keykeeper2/key_keeper_logic.cpp:60-65 | twelve seconds and five milliseconds are written as 12.005 |
| KeeperItems.KnownNumerals | keykeeper2/key_keeper_logic.cpp:310-311 | a time is read with or without a fraction and an exponent |
| KeeperItems.TakenOver | keykeeper2/key_keeper_logic.cpp:118-134 | an item taken over has the time of the update; one whose id is a peer address is taken over only when it is newer |
| KeeperItems.FetchedItem | keykeeper2/key_keeper_logic.cpp:169-191 | after a fetch an item has the data and time of its last offer and was updated now, or is as it was |
| KeeperItems.RepliesAre | keykeeper2/key_keeper_logic.cpp:270-285 | a node that answers a fetch sends its name and all its items, their times in milliseconds |
| KeeperItems.ItemReadExactly | keykeeper2/key_keeper_logic.cpp:302-313 | an item of a request is taken exactly when its id, its data and its time are there and in order, with the time of the request as its time of update |
| KeeperItems.PlainIdFirst | keykeeper2/key_keeper_logic.cpp:228-244 | a plain id is read before the numbered ones, and those in the order of the dictionary |
| KeeperCluster.UnsetSpreads | keykeeper2/key_keeper_logic.cpp:336-349 | unset takes the item away at the node and at every peer that answers, and leaves the other nodes |
| KeeperCluster.CleanupSpreads | keykeeper2/key_keeper_logic.cpp:351-364 | cleanup leaves one item at the node and at every peer that answers, and the other nodes as they were |
| KeeperCluster.SetSpreads | keykeeper2/key_keeper_logic.cpp:325-334 | a set, also one with numbered items, leaves its result at the node and the same, times rounded to milliseconds, at exactly the peers that answer |
| KeeperCluster.PlainSetSpreads | keykeeper2/key_keeper_logic.cpp:325-334 | a plain set stores one item, which shows the same at the node and at every peer that answers |
| KeeperRuns.RunKeepsClock | keykeeper2/key_keeper_logic.cpp:293-364 | over runs of plain sets, unsets, cleanups, fetches and writes of whole milliseconds all stored times stay whole milliseconds, on every node |
| KeeperCluster.PushDelivers | keykeeper2/key_keeper_logic.cpp:156-166 | exactly the nodes behind answering addresses get the snapshot, for any list and failure pattern |
| KeeperCluster.ArrivesUnchanged | keykeeper2/key_keeper_logic.cpp:143-155 | a store arrives unchanged exactly when its times are whole milliseconds |
| KeeperCluster.RunHealthy | keykeeper2/key_keeper_logic.cpp:15-17 | in every state of every cluster run all stored ids and data match their formats |
| KeeperCluster.FetchAfterAnyRun | keykeeper2/key_keeper_logic.cpp:169-218 | in every reachable state a fetch is the peer-wins union, drops no id and removes only the node's own addresses |
| KeeperRuns.NewestWinsAfterAnyRun | keykeeper2/key_keeper_logic.cpp:169-218 | in every reachable state, the exact condition for a fetch to set no stored creation time back |
| KeeperRuns.OutlivesExactly | keykeeper2/key_keeper_logic.cpp:118-191 | a key part outlives every fetch at a node, whichever peers answer, exactly when no other node on its peer list holds the id with other data |
| KeeperRuns.RunAgrees | keykeeper2/key_keeper_logic.cpp:118-364 | while no call brings in other data of an id on which all replicas agree, every node that holds it in any state of the run holds this data |
| KeeperRuns.StalePartComesBack | keykeeper2/key_keeper_logic.cpp:118-134 | a run in which the part of an abandoned generate_kek, left at one node, replaces that of the retry at another |
| KeyViews.SameCalls | xxcommon/tokenizer.cpp:224-285 | two states that differ only in parts 1 of versions the database does not know are changed alike by every call |
| ReplicatedSite.ReplicasActAsOne | xxcommon/tokenizer.cpp:42-134 | with part 1 in a cluster and every call served through some node, an orderly run does what the calls do to one store: orderly when calls that change something go through nodes with all known parts, no other part of a new version and no swept part of a known one is left anywhere, and nothing else brings one in |
| ReplicatedSite.TokensReadOnEveryNode | xxcommon/tokenizer.cpp:669-689 | after any orderly run that does not remove it a live token reads the same on every host through every node that holds the part 1 its row needs, and fails through the others |
| ReplicatedSite.TextReadOnEveryNode | xxcommon/tokenizer.cpp:634-689 | and a text made into a token through one node reads back as the text |
| ReplicatedSite.CalmRunIsOrderly | keykeeper2/key_keeper_logic.cpp:136-167 | where every request is heard by every node, any calls through any nodes and any fetches are an orderly run, and every node keeps all known parts |
| ReplicatedSite.CalmTokensReadable | xxcommon/tokenizer.cpp:669-689 | so every live token that is not removed reads the same on every host through every node |
| ConfPatch.ItemList.ProcessPath | confpatch/confpatch_logic.cpp:124-181 | what set, unset, cleanup and any other mode make of the list |
| ConfPatch.ItemList.FindItem | confpatch/confpatch_logic.cpp:111-122 | the first item with the id |
| ConfPatch.ModesOnMaps | confpatch/confpatch_logic.cpp:137-173 | over lists without repeated ids the modes are those of a map and repeat no id |
| ConfPatch.SetIsSeen | xxcommon/tokenizer.cpp:184-193 | the host sees a set exactly when the id is not repeated or already held the data |
| ConfPatch.RepeatedIdHidesSet | confpatch/confpatch_logic.cpp:137-146 | of two items with the id the set changes the first, and the host goes on reading the second |
| ConfPatch.SetStampsItem | confpatch/confpatch_logic.cpp:137-146 | a set writes the data and the time into the first item with the id, or a new last one, and leaves the others in their places |
| ConfPatch.UnsetTakesItem | confpatch/confpatch_logic.cpp:147-156 | an unset takes the first item with the id out and leaves the others in order |
| ConfPatch.CleanupKeepsItem | confpatch/confpatch_logic.cpp:158-173 | what survives a cleanup is the first item with the id, with its own data and time, and none is left exactly when it holds no data |
| ConfigNames.KekLoopSeesPart3 | xxcommon/tokenizer.cpp:244-254 | the prefix and suffix test takes exactly the part 3 rows, with their versions |
| ConfigNames.HmacLoopSeesHmacId | xxcommon/tokenizer.cpp:326-336 | the same for the digest key rows |
| ConfigNames.RenderInjective | keyapi/keyapi_logic.cpp:154-160 | no two keys of the model share a row |
| ConfigNames.KnownNames | keyapi/keyapi_logic.cpp:154-160 | the rows of version 7 as they are spelled |
| ConfigNames.KnownNumbers | xxcommon/tokenizer.cpp:244-254 | a number in a row may have a sign and leading zeros; an empty text, a sign alone and a foreign character are errors |
| Luhn.LuhnControlDigit | xxcommon/card_crypter.cpp:36-47 | the loop computes the control digit of the weighted sum |
| Luhn.LuhnCheck | xxcommon/card_crypter.cpp:49-59 | the loop decides the check on the weighted sum |
| Luhn.DoubledIsDigitSum | xxcommon/card_crypter.cpp:43 | a doubled digit counts as the digit sum of the result |
| Luhn.CheckByPlaces | xxcommon/card_crypter.cpp:36-59 | the check and the control digit by the places of the digits, every second one counted as the digit sum of its double |
| Luhn.LeadingZero | xxcommon/card_crypter.cpp:36-59 | a leading zero changes neither the check nor the control digit |
| Luhn.KnownNumber | xxcommon/card_crypter.cpp:36-59 | 4111111111111111 passes, and its last digit is the control digit of the others |
| Luhn.ControlDigitIsTheOne | xxcommon/card_crypter.cpp:36-59 | appending the control digit passes the check and no other digit does |
| Luhn.SubstitutionIsCaught | xxcommon/card_crypter.cpp:49-59 | every substitution of one digit is caught (Annex B of ISO/IEC 7812-1) |
| Luhn.SwapIsCaught | xxcommon/card_crypter.cpp:49-59 | a swap of unequal neighbouring digits passes exactly for 0 with 9 |
| Luhn.GeneratePan | xxcommon/card_crypter.cpp:61-73 | a generated number has the length, the prefix, the random digits, and passes the check; below 8 the call fails, below 7 because the unsigned length of the random part wraps around |
| Luhn.NormalizePan | xxcommon/card_crypter.cpp:4-18 | the loop keeps the digits and refuses foreign characters and lengths outside 12 to 19 |
| Luhn.NormalizeTwice | xxcommon/card_crypter.cpp:4-18 | a normalized number is its own normal form |
| Luhn.NormalIsTwelveToNineteen | xxcommon/card_crypter.cpp:4-18 | digits alone are accepted as they are when there are 12 to 19 of them, and refused otherwise |
| Luhn.SeparatorsDoNotMatter | xxcommon/card_crypter.cpp:4-18 | a space, tab, line feed, carriage return or zero character makes no difference anywhere |
| Luhn.ForeignIsRefused | xxcommon/card_crypter.cpp:4-18 | any other character that is no digit makes the call fail |
| TcpSocket.Socket.ReadLine | xxutils/tcp_socket.cpp:189-204 | the first line of the unread data, whatever the chunks |
| TcpSocket.Socket.Read | xxutils/tcp_socket.cpp:206-227 | exactly n bytes of the unread data, or an error with all of it used up |
| TcpSocket.Socket.ReadChunk | xxutils/tcp_socket.cpp:158-187 | more data in the buffer without losing any, false at the end |
| TcpSocket.Socket.Serve | xxutils/tcp_socket.cpp:158-227 | any sequence of calls gives what it gives on the unbuffered stream |
| TcpSocket.ChunksDoNotMatter | xxutils/tcp_socket.cpp:158-227 | two ways of cutting the same data give the same results |
| TcpSocket.NothingLost | xxutils/tcp_socket.cpp:189-227 | as long as no read comes short, results and rest together are the stream |
| TcpSocket.LinesAre | xxutils/tcp_socket.cpp:189-204 | a line is what comes before the first newline, with the newline; the last one may lack it |
| TcpSocket.ReadsAre | xxutils/tcp_socket.cpp:206-227 | a read takes the first n bytes; when there are fewer it fails and they are gone |
| ReplaceStr.Replace | xxutils/utils.cpp:263-282 | the loop terminates and gives the recursive leftmost replacement, for every text, search text and replacement |
| ReplaceStr.CopiedUpTo | xxutils/utils.cpp:273-280 | a text is copied up to its first match |
| ReplaceStr.FirstMatchReplaced | xxutils/utils.cpp:263-282 | the first match is replaced and the text behind it treated alike |
| ReplaceStr.NoMatchNoChange | xxutils/utils.cpp:263-282 | without a match nothing changes |

## Left out

- HTTP, XML and JSON handling, logging, authentication headers, user roles, status reports, process control: input and output.
- AES rounds, SHA-256, the OpenSSL base 64 stream and /dev/urandom: the cipher is any pair of functions that meets its law, base 64 is the encoding of section 4 of RFC 4648, random values are arbitrary.
- YB.ORM: transactions are serial in the lifecycle model and rows stay locked until commit or abort in `DekLocks`; joins never drop a row, because of the foreign keys.
- The 15-second cache of `TokenizerConfig` (xxcommon/tokenizer.cpp:505-515): every call reads fresh configuration; nothing is claimed for a stale cache.
- Unreachable key keeper or host while configuration is read: loading sees all parts that are stored.
- The hosts that generate_kek and cleanup contact are the hosts that serve calls; a host that is not configured is not part of this model.
- 32-bit overflow of versions, counters and ids: they are unbounded integers.
- Expiry dates of tokens, card-holder fields, `mask_pan`, `get_component` and `status`: they change nothing the theorems speak of.
- Digest versions used by vault rows only: `get_hmac_use_counts` counts the card table, so cleanup may drop them and a later search miss the text. That search finds what is stored (`Dedup`) is about the card table, that a found token stands for its text (`TrueDigests`) about both.
- KeyProc.Drive: the counter of failed rows, which the server always reports as 0, is not modelled; batch sizes are positive.
- DriverRuns.FindTask: the target, the status and the id range are read from one state, and the status call answers.
- Lifecycle.Tokenize: the pool may add any number of keys and select any selectable row, which covers every draw.
- Lifecycle.Apply: part 1 is one store; `ReplicatedSite` says when the cluster acts as one.
- ReplicatedSite.SiteNext: calls and what the nodes do among themselves come one after another, and a configuration is read from one node at one moment.
- TokenService.TokenizeIsLifecycle: a pool kept from an earlier call is one under the version that is still active; a switch of the active version between two calls of one Tokenizer, which share a session, gives new rows under the old version.
- DekPool.Pool.GetActiveDataKey: the draws are a finite list, so whether the retry loop ends for an unlucky generator is not claimed; rows are listed in the order of their ids.
- TokenService.Tokenizer.GenerateTokenString: the candidates are a finite list, likewise.
- Padding.Pkcs7DecodeLoop: the empty text, for which the program reads before the start of its buffer; decryption never returns one.
- Luhn.GeneratePan: lengths 0 to 5, for which the program first copies the prefix past the end of its buffer.
- KeeperWire.ParseTs: unsigned numerals with or without a fraction and an exponent; a sign in front, inf, nan and numbers beyond a double are refused here, and numbers are real, not rounded to a double.
- KeyKeeperNode.KeyKeeper.UpdateDataIfNeeded: the two readings of the clock count as one.
- KeeperCluster.SetSpreads, KeeperCluster.PlainSetSpreads, KeeperCluster.UnsetSpreads, KeeperCluster.CleanupSpreads: concurrent changes at two nodes; whole-snapshot pushes give no convergence.
- CryptoSuite.VaultRoundTrip, EndToEnd.TextSurvives: the sizes of the columns; `CryptoSuite.FitsColumnExactly` states them.
- ConfPatch: the list of items is modelled, not the rest of the XML document.
- TcpSocket: time-outs and socket errors; a source delivers chunks of 1 to 2500 bytes and then ends.
- Base 64 and hexadecimal text are strings of 8-bit characters; wider characters do not occur.
