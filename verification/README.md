# Backyard: a verified model of its protocols

Backyard is a private family site. Most of it is forms and pages, but several of its modules are
protocols over persistent state: an encrypted archive format, a two-stage removal of fixture data,
a mailer with savepoints and rotating links, credential generations that a restore rewinds, a
household change with a confirm step, a keyset-paged feed, and a few smaller transactional machines.
This project models those and proves what they are for.

| file | what it models |
|---|---|
| `Text.dfy`, `Collections.dfy`, `Wrappers.dfy` | decimal numbers, separators, `strip`, `lower`; the elements of a sequence; Option and Result |
| `BackupCrypto.dfy` | the chunked, authenticated archive: `encrypt` and `decrypt` |
| `FamilyRows.dfy` | rows, foreign keys, cascade closures, deletion, counting by model |
| `DemoData.dfy` | preview and wipe, and the two refusals |
| `DemoMarking.dfy` | containment selection, mark, unmark, and marking followed by a wipe |
| `DigestStore.dfy`, `Digesting.dfy`, `DigestSend.dfy`, `DigestTurns.dfy`, `DigestRecords.dfy`, `DigestLaws.dfy` | Email Updates: subscriptions, consent, windows, one send, every run, one recipient's turn and its link, what is recorded, and the promises said of rows and addresses alone |
| `Credentials.dfy` | bearer credentials over mint, regenerate, back up and restore |
| `Households.dfy`, `HouseholdConfirm.dfy`, `HouseholdSession.dfy` | household changes, the last-household rule, the confirm step, and requests of one session that overlap or die |
| `Feed.dfy` | keyset pagination, the printed cursor, the unread boundary |
| `Invites.dfy`, `Inbound.dfy`, `Media.dfy`, `Renditions.dfy`, `Metrics.dfy` | redemption, reply by email, rows versus files, a transcode against a purge, weekly rollups |

How the pieces are made. Where the source changes rows or session keys step by step, a class holds
them and its methods (`Wipe`, `SendOne`, `Restore`, `Encrypt`, ...) are proved equal to a function of
the old state; the results below are lemmas about those functions and about every run of them.
Database transactions and savepoints are snapshots of the state; token values, mail and files do not
roll back. Interleavings are sequences of small steps taken by threads that hold row locks.

What a function of the model means is not left to its name: for each operation some result says what it does
in rows, bytes, addresses or messages alone (`DemoData.PreviewedByRows`, `DemoMarking.SelectedByRows`,
`DigestLaws.SentExactly`, `Text.LowerExactly`, `BackupCrypto.UnreasonableHeadersAreRefused`, ...).

Ideal primitives. A derived key is the inputs it was derived from, a SHA-256 digest is the text it was
taken of, a new token is a value never drawn before, and what the AEAD opens is what one `encrypt`
sealed (`SealedBy`; `SealedWorldExists` shows the assumption can be met for every run).

## What turned out not to hold as one might state it

- The unsubscribe link in a message need not work. All mail a turn sends carries one link, and it works as
  long as nobody else replaces the member's digest: another run's first send to them, a re-subscription or a
  revocation between two yards does, since the lock is given up after each. `DigestTurns.TurnLinksWorkExactly`
  is the condition, for any other acts in between, and `DigestTurns.OverlappingRunsKillTheLink` the case of two
  runs: all three sends return as sent, and the first run's links are dead. Besides, a yard that crashes after
  handing its message over, or whose relay takes the message before the connection fails, rolls back the token
  it drew; if it was the first to draw one its message carries a dead link
  (`DigestTurns.UnsentMailMayCarryADeadLink`, `DigestTurns.HandedOverLinksWorkExactly`). Only such yards can
  have one window's news mailed twice (`DigestRecords.FullyRecordedOrAbsent`).
- A confirm page can authorise two acts. The session is loaded when a request starts, the act commits when the
  view returns, and the session is saved whole on the way out, without a lock. Two submits of one page both act
  unless the first has saved before the second loads (`HouseholdSession.TwoSubmitsActTwiceExactly`); a request
  that acts and dies before its save leaves the page open (`HouseholdSession.DeathLeavesThePageOpen`); any other
  view that overlaps a submit can save the spent nonce back (`HouseholdSession.StaleSaveRevivesASpentPage`). A
  creation acted on twice makes two households (`HouseholdSession.DoubleTapMakesTwoHouseholds`). As long as
  nobody saves between another request's load and its act or save, each act is what the newest page said, and
  no page authorises two if and only if nobody acts on a page that a request acted on and has not saved
  (`HouseholdSession.ActsAreWhatWasShownInOrder`).
- A reply by email is lost if the process dies between its ledger row and its comment: the next poll calls it
  a duplicate (`Inbound.CrashLosesTheReply`).
- A purge of a video leaves its rendition on the disk if and only if the rendition was written, and the row did
  not name it yet when the purge read the row (`Renditions.PurgeCoversTheRenditionExactly`).
- A restore that stops after the database was replaced brings dead links back. When the security replay
  fails the source says so in its error; when the media tree fails just before it, the replay is never
  reached and the error does not mention credentials. `Credentials.UnfinishedRestoreRevives` is the input,
  `Credentials.RestoreEndsEverythingExactly` the condition.
- A wipe right after one marking can still refuse as stranding somebody: a member who is in a pod of no
  yard. `DemoMarking.MarkThenWipeMayBeRefused` is such a database, and there the member does see a yard
  before; `DemoMarking.MarkThenWipeStrands` says exactly whom; with a yard for every pod it is nobody.
- `unmark` gives back the database from before a marking if and only if nothing carried the marker then
  (`DemoMarking.UnmarkUndoesMarkExactly`; `DemoMarking.UnmarkMayTakeMore` is a database where it does not).
- Without their row locks the last-household rule and the invite cap both fail
  (`Households.UnlockedRaceStrands`, `Invites.UnlockedRaceOverfills`); with them they hold over every
  interleaving.

## Model

| member | source | states |
|---|---|---|
| Text.LowerExactly | src/core/digesting.py:114-139 | comparing in lower case tells apart everything but the case of ASCII letters |
| Text.StripDropsOnlySpace | src/core/inbound.py:156-171 | stripping takes only space, and only from the ends |
| Text.JoinThenSplit | src/core/inbound.py:156-171 | joined lines split back into the same lines |
| BackupCrypto.AadInjective | src/core/backup_crypto.py:69-73 | no two (chunk index, final flag) pairs share their associated data |
| BackupCrypto.NonceInjective | src/core/backup_crypto.py:101 | within the counter's range a nonce names one prefix and one chunk index |
| BackupCrypto.BigEndianRoundTrip | src/core/backup_crypto.py:92 | a length or cost field written big-endian reads back as itself |
| BackupCrypto.FromBigEndianRoundTrip | src/core/backup_crypto.py:123 | every four header bytes are the encoding of the number read from them, so a header that parses to the run's parameters is the run's header |
| BackupCrypto.SealedWorldExists | src/core/backup_crypto.py:95-108 | for every run there is an ideal AEAD that opens exactly its chunks: distinct nonces keep the sealed tuples apart |
| BackupCrypto.OnlyItsOwnChunkOpens | src/core/backup_crypto.py:160-175 | whatever key, prefix, index, flag and ciphertext are tried, what opens is that run's chunk at that index under its own flag, or nothing |
| BackupCrypto.FrameStep | src/core/backup_crypto.py:145-175 | at chunk k any input either continues with exactly the run's k-th frame and yields that chunk, or fails having written nothing more |
| BackupCrypto.FramesAuthentic | src/core/backup_crypto.py:144-175 | from any chunk on: only a prefix of the remaining plaintext is written, and success is the same as the input continuing with all remaining frames under the run's key |
| BackupCrypto.MostSignificantFirst | src/core/backup_crypto.py:123 | header fields and chunk lengths are written most significant byte first |
| BackupCrypto.UnreasonableHeadersAreRefused | src/core/backup_crypto.py:131-139 | a cost outside 2^14 to 2^20 or no power of two, or other parameters out of bounds, is refused before anything is derived or opened, whatever the passphrase |
| BackupCrypto.LongChunksAreRefused | src/core/backup_crypto.py:152-155 | a chunk longer than the format writes is refused unread, whatever is under its tag |
| BackupCrypto.OurCostIsReasonable | src/core/backup_crypto.py:131-135 | the scrypt cost `encrypt` writes passes the bounds `decrypt` enforces, the power-of-two test included |
| BackupCrypto.HeaderCut | src/core/backup_crypto.py:89-93 | the parameters read from a byte string are the run's if and only if the run's header is a prefix of it |
| BackupCrypto.HeaderGate | src/core/backup_crypto.py:118-142 | decryption reaches the chunks under the run's key and prefix exactly when that header is in front and the passphrase is right; otherwise it writes nothing |
| BackupCrypto.DecryptIsAuthentic | src/core/backup_crypto.py:111-175 | for ANY bytes and passphrase: only a prefix of the plaintext is ever written; success means all of it was written, and happens if and only if the passphrase is right and the whole archive is a prefix of the input |
| BackupCrypto.DecryptUndoesEncrypt | src/core/backup_crypto.py:82-175 | `decrypt(encrypt(p)) == p` for every chunking, the empty file included, whatever trails the archive |
| BackupCrypto.NoSpliceOpens | src/core/backup_crypto.py:111-175 | with any number of archives under one AEAD, told apart by salt or nonce prefix: any bytes made of their parts yield only a prefix of the archive whose header is in front, and succeed if and only if some whole archive is in front under its own passphrase |
| BackupCrypto.EncryptChunks | src/core/backup_crypto.py:95-108 | for every sequence of short reads the lookahead loop writes the frames of the chunks read, which make up the whole plaintext; only a counter past 2^32 chunks fails |
| BackupCrypto.Encrypt | src/core/backup_crypto.py:82-108 | writes the archive of a valid run over the whole plaintext, or refuses an empty passphrase having read and written nothing |
| BackupCrypto.DecryptChunks | src/core/backup_crypto.py:144-175 | the streaming loop raises and writes exactly what the recursive definition says, for every input |
| BackupCrypto.Decrypt | src/core/backup_crypto.py:111-175 | raises and writes exactly what `Decrypted` says, so every result above is about this loop |
| FamilyRows.Closure | src/core/demo_data.py:99-152 | what deleting rows deletes holds the roots and everything hanging off it |
| FamilyRows.ClosureIsLeast | src/core/demo_data.py:99-152 | and nothing else: it lies inside every closed set holding the roots |
| FamilyRows.ClosureOfUnion | src/core/demo_data.py:134-152 | the per-model closures merge into the closure of all marked rows |
| FamilyRows.ClosureInTheResidue | src/core/demo_data.py:569-586 | once one closure is deleted, the closure of what is left of the other roots is theirs minus what already went |
| FamilyRows.DeleteKeepsTheSchema | src/core/models.py:649-659 | deleting a closed set leaves every foreign key and the one-owner constraint intact |
| FamilyRows.TallyOfUnion | src/core/demo_data.py:408-425 | counts by model of disjoint sets add up |
| FamilyRows.TallyInTheResidue | src/core/demo_data.py:569-586 | rows that stay count the same after a delete nulled their references |
| DemoData.OnlyMarkedRootsGo | src/core/demo_data.py:155-281 | of yards, pods and members the closure takes exactly the marked ones, so the refusal's first half can never fire |
| DemoData.LinksGoWithTheirEnds | src/core/demo_data.py:298-335 | a membership or pod-yard row goes if and only if one of the two rows it links goes |
| DemoData.YardsAfter | src/core/demo_data.py:298-335 | what a surviving member sees after the wipe, in terms of the pods and yards collected before it |
| DemoData.StrandedMeansSeesNothing | src/core/demo_data.py:284-346 | when a pod or yard goes, the check flags a member if and only if they stay, were in a pod and would see no yard |
| DemoData.NobodyLosesTheirLastYard | src/core/demo_data.py:284-346 | when the check passes, every surviving member who saw a yard still sees one |
| DemoData.MediaGoesWithItsOwner | src/core/models.py:649-659 | a media row goes if and only if the one post or reply it hangs off goes |
| DemoData.TrespassIsExactlyWordsLost | src/core/demo_data.py:155-281 | the content refusal lists exactly the live posts and replies, of people who stay, that the wipe would take |
| DemoData.WhatPeopleMadeSurvives | src/core/demo_data.py:155-281 | a wipe not refused keeps every unmarked yard, pod and member and every live post and reply of anyone who stays, with all its media |
| DemoData.PreviewedByRows | src/core/demo_data.py:408-425 | the answer in rows alone: refused if and only if a live or photographed post or reply of somebody who stays would go, or else somebody who stays would be left without a pod in a yard; otherwise the counts, each the size of an explicit set of rows |
| DemoData.WipeKeepsLiveWords | src/core/demo_data.py:240-281 | after a wipe every post and reply of anyone who stays, live or deleted with photographs still on it, is as it was, with all its media rows |
| DemoData.SurvivorsAreUntouched | src/core/demo_data.py:584-586 | a row that stays is as it was, unless it referred to a row that went |
| DemoData.TallyCounts | src/core/demo_data.py:408-425 | the figure for a model is the number of its rows that went |
| DemoData.RemoveNext | src/core/demo_data.py:563-586 | each delete in the sequence keeps: what is gone is a closure of the original rows, each counted once |
| DemoData.CollectFrom | src/core/demo_data.py:99-152 | the loop that follows cascading keys stops at the closure |
| DemoData.Collect | src/core/demo_data.py:99-152 | merging the three per-model closures gives the closure of everything marked |
| DemoData.FindTrespass | src/core/demo_data.py:155-281 | the loop finds all of, and only, the rows the content refusal is about |
| DemoData.FindStranded | src/core/demo_data.py:284-346 | the loop finds all of, and only, the members the stranding refusal is about |
| DemoData.Instance.Preview | src/core/demo_data.py:408-425 | the dry run answers with the first refusal that applies, or the counts of the closure, and changes nothing |
| DemoData.Instance.DeleteInOrder | src/core/demo_data.py:563-586 | media and faces, then members, then pods, then yards: together exactly the collected closure, each row counted once |
| DemoData.Instance.Wipe | src/core/demo_data.py:514-611 | returns the very answer the dry run gave beforehand; a refusal leaves the database unchanged, otherwise exactly the closure is gone |
| DemoMarking.SelectedByRows | src/core/demo_marking.py:217-327 | who is selected, in rows: pods in some yard and in named ones only; members in some pod and in selected ones only; and behind the flag those in no pod who wrote inside, wrote and reacted nowhere else, and leave no child outside |
| DemoMarking.RefusalsByRows | src/core/demo_marking.py:217-327 | which refusal, in rows: a blank marker, a name no yard has, no name at all, or a selected row with another marker |
| DemoMarking.WhoWroteNothingStays | src/core/demo_marking.py:129-150 | somebody in no pod who never wrote anything outlives any marking and the wipe after it |
| DemoMarking.StampKeepsTheGraph | src/core/demo_marking.py:348-378 | marking changes no edge: every row's parents, pods and yards are as before |
| DemoMarking.MarkedIsTheSelection | src/core/demo_marking.py:217-327 | with a marker nothing carried, the yards, pods and members a wipe then collects are the selection, no more and no less |
| DemoMarking.MarkThenWipeStrands | src/core/demo_marking.py:245-281 | whom a wipe right after one marking strands: exactly the unselected members in some pod whose unselected pods have no yard |
| DemoMarking.MarkThenWipeMayBeRefused | src/core/demo_data.py:298-335 | a concrete well-formed database where the wipe after a first marking is refused over a member who did see a yard |
| DemoMarking.MarkThenWipeStrandsNobody | src/core/demo_marking.py:245-281 | when every pod has a yard it strands nobody, and each unselected member with pods still sees a yard afterwards |
| DemoMarking.MarkThenWipeGoesAheadExactly | src/core/demo_marking.py:217-327 | the wipe after one marking goes ahead if and only if it would take no live words of somebody unselected, and of yards, pods and members exactly the selection goes |
| DemoMarking.DepartedTakeNothingMore | src/core/demo_marking.py:129-214 | including departed members takes no post, reply, reaction or media that the selected pods were not taking anyway |
| DemoMarking.UnmarkUndoesMarkExactly | src/core/demo_marking.py:381-398 | unmark restores the database from before a marking if and only if nothing carried the marker then |
| DemoMarking.UnmarkMayTakeMore | src/core/demo_marking.py:381-398 | a concrete database already carrying the marker, where unmark after mark does not give it back |
| DemoMarking.SelectPods | src/core/demo_marking.py:251-265 | the candidate loop keeps exactly the pods all of whose yards are named |
| DemoMarking.SelectMembers | src/core/demo_marking.py:267-281 | the candidate loop keeps exactly the members all of whose pods are selected |
| DemoMarking.Select | src/core/demo_marking.py:217-327 | the selection or the first refusal that applies |
| DemoMarking.Marker.Apply | src/core/demo_marking.py:348-378 | succeeds if and only if the re-selected set is the one previewed, stamps that set alone, and otherwise changes nothing |
| DemoMarking.Marker.Unmark | src/core/demo_marking.py:381-398 | afterwards no row carries the marker, and no other marker was touched |
| DigestStore.ChainTiles | src/core/digest_links.py:138-159 | in a chain of windows every moment of the covered range lies in exactly one |
| Digesting.ReplacingKeepsInv | src/core/digesting.py:142-257 | the condition under which a subscription row may be replaced without breaking consent or token ownership |
| Digesting.SubscribedKeepsInv | src/core/digesting.py:142-257 | subscribing, re-pointing or re-subscribing keeps consent and token ownership, whether or not the mail left |
| Digesting.ConfirmedKeepsInv | src/core/digesting.py:275-291 | confirming by a mailed token keeps: confirmed means proven for this member and this mailbox |
| Digesting.AccountConfirmedKeepsInv | src/core/signals.py:105-179 | an account confirmation counts for the subscription only at the same mailbox, and keeps the same |
| Digesting.SwitchesKeepInv | src/core/digesting.py:300-330 | unsubscribing, switching and voiding keep it too |
| Digesting.ConfirmHolderIsUnique | src/core/digesting.py:260-266 | a digest names at most one subscription, so a lookup by token is a function |
| Digesting.OldConfirmLinksDie | src/core/digesting.py:275-291 | a confirm link that was used, or that a re-subscribe replaced, finds nothing afterwards |
| Digesting.Subscribe | src/core/digesting.py:142-257 | the branches, in the source's order, leave exactly the state whose preservation is proved |
| Digesting.Confirm | src/core/digesting.py:275-291 | finds the token's holder if there is one and confirms that one subscription; an unknown token changes none |
| Digesting.Unsubscribe | src/core/digesting.py:300-307 | switches off the token's holder and nobody else |
| Digesting.SetEnabled | src/core/digesting.py:310-330 | sets the one preference of the one member and leaves their address, confirmation and tokens, everybody else, and all issues, tokens and mail as they were; switching back is no change at all, and the consent invariant stays |
| Digesting.RotateUnsubscribe | src/core/digesting.py:333-342 | the new capability is a value never drawn before and the old one is gone |
| DigestLaws.SubscribedExactly | src/core/digesting.py:142-257 | what subscribing leaves in each of its three cases: the confirmed address keeps its confirmation, the sign-in mailbox is never un-confirmed and nothing is mailed, any other address starts unconfirmed with its token mailed there and nowhere else; nobody else is touched |
| DigestLaws.ConfirmedExactly | src/core/digesting.py:275-291 | a confirm link confirms its one subscription and is burnt; an unknown one changes nothing |
| DigestLaws.UnsubscribedExactly | src/core/digesting.py:300-307 | an unsubscribe link switches its one subscription off and does nothing else |
| DigestLaws.AccountConfirmedExactly | src/core/signals.py:105-179 | an account confirmation starts this member's subscription if and only if it is unconfirmed and at the same letters whatever their case |
| DigestLaws.VoidedExactly | src/core/revocation.py:119-130 | voiding kills both links of one member and leaves preference, address and confirmation |
| DigestLaws.ContentFollowsProof | src/core/digesting.py:142-257 | over any run: whoever was mailed content, or is confirmed, had shown by an act of that run control of that very mailbox, letter for letter but for case |
| DigestLaws.AnchorIsTheLatestEnd | src/core/digest_send.py:142-163 | a window starts at the latest end of the member's issues in that yard, or at the confirmation if there is none |
| DigestLaws.NotLiveIsSkipped | src/core/digest_send.py:133-140 | switched off, unconfirmed or no longer in the yard: skipped, and the whole state is as it was |
| DigestLaws.SentExactly | src/core/digest_send.py:113-252 | a send is sent if and only if its member is on, confirmed and in the yard, the window is not empty, both looks have a written post in it and the relay takes it; then one message to the subscribed address and the window have been added |
| DigestLaws.SilentWhileOff | src/core/digesting.py:300-330 | over any run, once a member is off no content goes to them until they subscribe or switch on again |
| DigestSend.WindowIsNew | src/core/digest_send.py:176-184 | the window a send opens starts at or after the end of every issue of that member and yard, so the "not created" branch is never taken |
| DigestSend.SendKeepsInv | src/core/digest_send.py:113-252 | every outcome of a send keeps chains, tokens and consent: content leaves only for a proven mailbox |
| DigestSend.SendMovesOneWindow | src/core/digest_send.py:142-184 | a send appends at most one window, to its own member and yard, and only when sent or recorded as failed; skips and crashes leave the database as it was |
| DigestSend.EveryRunKeepsInv | src/core/digest_send.py:58-90 | over any interleaving of sends, crashes and settings changes: windows chain, tokens are nobody else's, confirmation precedes content |
| DigestSend.WindowsOnlyAppend | src/core/models.py:1137-1147 | no issue ever moves, merges or goes: a member's windows in a yard only grow at the end |
| DigestSend.EachPostIsInOneIssue | src/core/digest_links.py:111-159 | after any run from the start, a visible written post in the covered range is in exactly one of the issues |
| DigestSend.SendOne | src/core/digest_send.py:113-252 | the transaction with its two nested savepoints has the net effect `SendAfter`, for every mix of looks, fates and tokens in play |
| DigestTurns.ReplacesExactly | src/core/digesting.py:142-257 | what any act does to any member's unsubscribe digest: it stays, or no value drawn before is stored; and which acts those are |
| DigestTurns.TurnKeepsOneLink | src/core/digest_send.py:58-90 | after any yards and any other acts between them: no token in play and nothing sent; or the stored digest is that of the token in play, unless somebody replaced it and that token is dead; and all mail handed over carries it, but for at most one message per failed or crashed yard |
| DigestTurns.TurnLinksWorkExactly | src/core/digest_send.py:58-90 | everything a turn handed over is of two kinds: mail sharing one link, which finds this member if and only if nobody else replaced their digest since it was drawn, and at most one message per failed or crashed yard, whose link finds nobody |
| DigestTurns.TurnSharesOneWorkingLink | src/core/digest_send.py:58-90 | the undisturbed turn: the shared link finds this member, and a turn that sends nothing leaves the old link as it was |
| DigestTurns.EachYardCountsOnce | src/core/digest_send.py:76-90 | every yard is counted once, under what became of it |
| DigestTurns.SendTurn | src/core/digest_send.py:58-90 | the loop over a recipient's yards computes the undisturbed turn, counts included, a crash leaving the token in play |
| DigestTurns.HandedOverLinksWorkExactly | src/core/digest_send.py:185-252 | the link in a message just handed over works if and only if, with a token in play, the stored digest is still that token's, and without one the send returned as sent |
| DigestTurns.OverlappingRunsKillTheLink | src/core/digest_send.py:126-131 | from any state with three yards to send: two overlapping runs send all three, and both links of the first run find nobody |
| DigestTurns.OverlappingRunsHappen | src/core/digest_send.py:126-131 | such a state |
| DigestTurns.UnsentMailMayCarryADeadLink | src/core/digest_send.py:228-252 | two concrete sends, one crashed and one failed after the relay took the mail, whose message left with a link that finds nobody |
| DigestRecords.StepKeepsRecords | src/core/digest_send.py:176-252 | every act keeps issues, deliveries and read tokens matched one for one |
| DigestRecords.RunBalances | src/core/digest_send.py:58-90 | over any run the messages with a window's news are the handed-over records plus those a crash or a late transport error left unrecorded |
| DigestRecords.FullyRecordedOrAbsent | src/core/digest_send.py:113-252 | after any run from the start each issue has one delivery, exactly the handed-over ones a read token, no two share a window, and a window's news was mailed once if handed over and not otherwise, strays aside |
| Credentials.BuriedNeverOpens | src/core/elder_tokens.py:82-95 | a value counted dead opens no link, session, invite or emailed capability |
| Credentials.StepKeepsInv | src/core/backups.py:243-370 | every act keeps: credentials, live and archived, were minted at or below their member's generation, and the dead have nothing left to reopen them |
| Credentials.EveryRunKeepsInv | src/core/backups.py:243-370 | so does every run, and when restores run to their end what is dead stays dead |
| Credentials.DeadUnlessReopened | src/core/backups.py:243-370 | over any run, unfinished restores included: a buried value works again only if a restore was cut short over an archive that could reopen it and no completed restore or regenerate of its member followed |
| Credentials.RegeneratedStaysDead | src/core/elder_tokens.py:70-95 | after a regenerate nothing drawn for that member before it opens again, through any later backups and restores, but for a value a cut-short restore reopened and nothing has ended since |
| Credentials.RestoredStaysDead | src/core/backups.py:328-370 | after a completed restore nothing drawn for anybody before it opens again, under the same proviso |
| Credentials.FreshLinksOpen | src/core/elder_tokens.py:52-79 | the links a mint and a regenerate hand out do work |
| Credentials.MintingReplacesItsOwnKind | src/core/elder_tokens.py:52-67 | a mint closes the member's earlier elder link or recovery link of that kind, and leaves every other row as open as it was |
| Credentials.EnteringExactly | src/core/elder_views.py:53-80 | entering opens a session if and only if the link is a live elder link of the current generation |
| Credentials.SessionNeedsItsLink | src/core/elder_views.py:83-99 | a session outlives neither its generation nor its member's last link row |
| Credentials.RegenerateSparesTheOthers | src/core/elder_tokens.py:70-79 | whatever was drawn for anybody else works after a regenerate exactly if it worked before |
| Credentials.GenerationsRecur | src/core/backups.py:328-370 | back up, regenerate, restore: from any state the new link's generation is current again, and the link is dead all the same |
| Credentials.UnfinishedRestoreRevives | src/core/backups.py:295-314 | a restore that fails over the media tree or in the replay revives a regenerated member's old link |
| Credentials.RestoreEndsEverythingExactly | src/core/backups.py:243-314 | a restore leaves nothing drawn before it working if and only if it ran to its end or the archive held nothing that works |
| Credentials.Instance.Restore | src/core/backups.py:243-370 | the three refusals - members in the database, an oversized outer file, an oversized media tree - come before any change; then the database is the archive, and the outcome says whether the replay ran in full |
| Credentials.Instance.Regenerate | src/core/elder_tokens.py:70-79 | revocation, bump and fresh link as one state change |
| Credentials.Instance.RevokeRows | src/core/revocation.py:200-239 | the registry's separate updates leave no working row of this member and touch nobody else's |
| Credentials.TotalSizeAdds | src/core/backups.py:392-446 | the announced total sums over the regular files and no others |
| Credentials.Instance.RefuseAnOversizedExtraction | src/core/backups.py:392-446 | refuses if and only if one file, the sum, or the sum against the free space less the reserve is over its ceiling |
| Households.GainedIsTheDifference | src/core/households.py:103-107 | the sides named as gained are exactly those the member sees after and did not before |
| Households.CreatedGainIsTheDifference | src/core/households.py:188-208 | likewise for a household made on the spot |
| Households.LostIsTheDifference | src/core/households.py:110-121 | the sides named as lost, over which credentials are revoked, are exactly those seen before and not after |
| Households.StepCarriesOutOne | src/core/households.py:169-241 | under the lock a step leaves memberships, ledger and registry alone or carries out one act: a removal with one call of the shrink registry over exactly the sides seen before and not after, an addition or creation with none |
| Households.NoSideIsLostUnrevoked | src/core/households.py:229-236 | over every run under the lock, whoever saw a side and no longer does has had the registry called over it in between |
| Households.EndingLetsGo | src/core/households.py:211-241 | an act written or refused frees its member's lock and no other |
| Households.StepKeepsInv | src/core/households.py:211-241 | a thread past its check holds the member's lock and its removal still leaves a household, whatever other threads do |
| Households.NobodyIsStranded | src/core/households.py:144-153 | over every interleaving of adds, creations and removals under the lock, a member in a household stays in one |
| Households.UnlockedRaceStrands | src/core/households.py:211-241 | without the lock two removals each pass the check and together strand the member |
| Households.Service.CarryOut | src/core/households.py:169-241 | which refusal wins; that a refusal leaves nothing behind, not even the household a refused creation made; and what an act carried out changes: memberships, ledger, and the registry called over exactly the sides lost |
| HouseholdConfirm.FingerprintInjective | src/core/household_views.py:198-213 | two proposals with one fingerprint text are the same proposal, though the name may itself contain the separator |
| HouseholdConfirm.ShownPageConfirms | src/core/household_views.py:98-101 | a page shown confirms by its nonce if it says what it said, and under no other wording or nonce, nor for anybody else |
| HouseholdConfirm.EveryRunKeepsInv | src/core/household_views.py:89-131 | after any posts, one request at a time: the outstanding nonce belongs to the newest, unused page for its person, and the stored fingerprint is that page's |
| HouseholdConfirm.ActsAreWhatWasShown | src/core/household_views.py:89-131 | one request at a time, every act carried out is the proposal of the newest confirm page for that person by then, and no page authorises two |
| HouseholdSession.StepKeepsWorldInv | src/core/household_views.py:89-131 | in order, each load, act, save or death keeps: a stored nonce is the newest page's, and the nonce of a page acted on is stored no longer unless that request has not saved |
| HouseholdSession.ActsAreWhatWasShownInOrder | src/core/household_views.py:89-131 | over overlapping and dying requests, when nobody saves between another's load and its act or save: every act is what the newest page said, and no page authorises two if and only if nobody acts on a page that a request acted on and has not saved |
| HouseholdSession.WorkThenSaveIsSubmitted | src/core/household_views.py:98-131 | a request nobody overtakes does exactly what one with the session to itself does |
| HouseholdSession.LoadedConfirmationActs | src/core/household_views.py:98-101 | a submit acts if and only if the session as it loaded it confirms, whatever any other request does before its view runs |
| HouseholdSession.TwoSubmitsActTwiceExactly | src/core/household_views.py:98-101 | of two submits of one page both act, in every order and whether or not the first ever saves, unless the first has saved before the second loads |
| HouseholdSession.DeathLeavesThePageOpen | src/core/household_views.py:98-105 | a request acts and dies before its session is saved; in order, the page is acted on again |
| HouseholdSession.DoubleTapMakesTwoHouseholds | src/core/households.py:188-208 | the second of two creations is not refused and makes another household with the same member; a second addition or removal is refused |
| HouseholdSession.StaleSaveRevivesASpentPage | src/core/handover.py:101-108 | a page is acted on twice though nothing loads between the load and save of the first submit: another view saved the spent nonce back |
| HouseholdConfirm.View.FreshIntent | src/core/handover.py:93-98 | a value never issued before becomes the one outstanding |
| HouseholdConfirm.View.ConsumeIntent | src/core/handover.py:101-108 | true for the outstanding nonce only, which is then spent; anything else changes nothing |
| HouseholdConfirm.View.ChangeHousehold | src/core/household_views.py:72-138 | acts if and only if fingerprint and nonce both match, and a fingerprint mismatch does not spend the nonce |
| Feed.OrderIsUnique | src/core/feed_views.py:446 | a set of posts has one descending order, and it is the one the feed uses |
| Feed.PageShowsTheTop | src/core/feed_views.py:420-451 | a page followed by what is below its cursor is everything that was left, and no cursor is printed exactly when the page is all there is |
| Feed.PageIsNewestFirst | src/core/feed_views.py:420-451 | in times and ids: a page comes newest first, ties by the higher id, full if there is more, and leaves out of what was left only what is older than its last post |
| Feed.WalkNeverRepeats | src/core/feed_views.py:420-451 | whatever is posted or removed between pages, nothing is shown twice or out of order |
| Feed.WalkShowsWhatStays | src/core/feed_views.py:420-451 | a post visible throughout a walk to the end is shown |
| Feed.WalkIsExact | src/core/feed_views.py:420-451 | when only newer posts arrive the walk is, in order and once each, what was visible at the first request, and it ends |
| Feed.CursorRoundTrip | src/core/feed_views.py:342-370 | a printed cursor parses back to the post it names |
| Feed.OnlyWholeCursorsParse | src/core/feed_views.py:342-370 | a cursor is taken only as a moment with a zone, an underscore, and an id in range |
| Feed.FirstSeen | src/core/feed_views.py:484-486 | the boundary splits the page into new above and seen below, and is absent exactly when the page is all one or all the other |
| Invites.StepKeepsInv | src/core/invites.py:147-192 | a redeemer's row stays as it read it while the count equals the redemptions |
| Invites.LinksAreBounded | src/core/invites.py:126-192 | over every interleaving the count is the number of redemptions and within the cap, nobody becomes instance admin even from a hand-edited row, and only the first through can get the role |
| Invites.MintedExactly | src/core/invites.py:68-100 | a link is made only to grant the side admin's role or none |
| Invites.StartsExactly | src/core/invites.py:171-179 | a redeemer gets past the checks if and only if the link is there, not revoked, not expired and not used up |
| Invites.ShutLinksStayShut | src/core/invites.py:171-179 | once revoked or expired a link nobody is redeeming is never redeemed again, in any run |
| Invites.AbortUndoesStart | src/core/invites.py:147-169 | a redeemer that rolls back leaves no trace, its lock included |
| Invites.UnlockedRaceOverfills | src/core/invites.py:147-192 | without the row lock a one-use link is used twice and both get the role |
| Invites.Ledger.Redeem | src/core/invites.py:147-192 | gets past its invite checks if and only if a peek in the same state would, that is on a link not revoked, expired or used up; gives the side admin's role to the first and nobody else; a refusal changes nothing |
| Inbound.LinesAbove | src/core/inbound.py:156-171 | the first separator line, or that there is none |
| Inbound.Trimmed | src/core/inbound.py:156-171 | only trailing blanks and attributions are dropped, and all of those |
| Inbound.PostedExactly | src/core/inbound.py:239-338 | a reply is posted if and only if it parses within bounds, its capability resolves under the hourly ceiling, the process lives, it comes from the member's own address, it is a first delivery, words are left above its first separator, and its sender may comment there now |
| Inbound.RefusedExactly | src/core/inbound.py:239-313 | what becomes of everything that does not get through, and what is recorded of it; the ledger takes exactly what does |
| Inbound.NotPostedExactly | src/core/inbound.py:313-338 | of what gets through and is not posted: quarantined where no words are left, and otherwise bounced |
| Inbound.KeysTellApart | src/core/inbound.py:301-306 | messages with a Message-ID are told apart by it alone, the others by their first thousand characters |
| Inbound.ContainsExactly | src/core/inbound.py:156-162 | a separator counts wherever it stands in its line |
| Inbound.DroppedLinesExactly | src/core/inbound.py:163-170 | the lines dropped above it are those of only space and a client's attributions |
| Inbound.ControlGoesAndTheRestStays | src/core/inbound.py:174-181 | a text with nothing to clean stays whole |
| Inbound.PlainReplyIsPostedWhole | src/core/inbound.py:313-325 | a reply of at most 2000 ordinary characters is posted word for word |
| Inbound.PostedCameFrom | src/core/inbound.py:239-338 | a posted body is non-empty, at most 2000 characters, cut above the first separator of that message, and attributed by its capability alone |
| Inbound.NothingIsPostedTwice | src/core/inbound.py:301-338 | over any sequence of deliveries with any repeats at most one comment per message key and capability, each derived from a delivered message |
| Inbound.RepollPostsNothing | src/core/inbound.py:301-313 | a message already in the ledger changes neither comments nor ledger |
| Inbound.CrashLosesTheReply | src/core/inbound.py:301-313 | a reply whose process died after the ledger row is posted by no later delivery of it, in any run |
| Inbound.StripBelowSeparator | src/core/inbound.py:156-171 | the scan and the trimming loop compute exactly the lines the function above defines |
| Inbound.MailSource.Acknowledge | src/core/mail_sources.py:46-48 | one copy of the message leaves the queue and is recorded |
| Inbound.Pipeline.Poll | src/core/mail_sources.py:51-59 | state and results are those of processing each message once in order, each acknowledged, and the queue ends empty - or begins with the message the process died over |
| Media.CommittedRowsAreWhole | src/core/media.py:196-231 | in every reachable state committed rows name files that are there, no purge covers and no other row names, and a member has at most one face |
| Media.ReplacingAFaceKeepsInv | src/core/media.py:218-231 | under the member's lock a replacement purges the old face and leaves the new one alone in its place |
| Media.CommittingKeepsInv | src/core/media.py:413-428 | a commit dooms no file that a committed row or another open transaction names |
| Media.EveryRunKeepsInv | src/core/media.py:400-428 | over every interleaving of ingests, purges, commits, rollbacks and late unlinks |
| Media.DoomedStaysDoomed | src/core/media.py:413-428 | after a committed purge no row names its files again, and each is off the disk for good unless its unlink is outstanding or died with the process |
| Media.CommittedPurgeTakesItsFiles | src/core/media.py:400-428 | purge, anything, commit: the rows are gone and every one of their files is covered |
| Media.RowGoesExactlyWithItsPurge | src/core/media.py:400-428 | over any interleaving a committed row goes if and only if a transaction that deleted it commits, and then a committed purge covers each of its files; otherwise it is as it was, files on the disk |
| Media.RollbackRemovesNothing | src/core/media.py:413-428 | a row only one transaction deleted stands, files and all, as long as that one does not commit, whatever the others commit and unlink meanwhile |
| Media.IngestedRowsArrive | src/core/media.py:270-290 | what was ingested is there, files and all, once its transaction commits |
| Media.IngestedFacesArrive | src/core/media.py:196-231 | a new face is, once committed, the member's only one |
| Media.EndingLetsGo | src/core/media.py:218-222 | a commit or a rollback frees the transaction's locks and nobody else's |
| Media.DeletionsWaitInEveryRun | src/core/media.py:400-410 | in every run the files of a row deleted in an open transaction are on that transaction's list |
| Renditions.PurgeCoversTheRenditionExactly | src/core/transcoding.py:258-290 | over every interleaving of a purge and a transcode of one row, each possibly cut short: nothing of the row is left on the disk if and only if the rendition was never written or the row named it when the purge read it |
| Renditions.ARenditionMayBeOrphaned | src/core/transcoding.py:276-290 | the order in which it is left: looked for, purged, then written |
| Media.Transaction.Purge | src/core/media.py:400-410 | the loop deletes exactly the rows in hand, counts them, and leaves every file any of them names to the commit |
| Metrics.PresenceIsYardIndependent | src/core/metrics.py:57-103 | whether a member was present does not depend on which yard's rollup asks, though two inputs are filtered by yard |
| Metrics.CommentAnswersExactly | src/core/metrics.py:105-122 | one more comment answers a post if and only if somebody else made it, within seven days of the post, and it is not deleted |
| Metrics.ReactionAnswersExactly | src/core/metrics.py:105-122 | one more reaction answers it if and only if it is somebody else's and within seven days |
| Metrics.WeekHasItsEdges | src/core/metrics.py:43-58 | a week is from its first instant and before the next week's, for the yard's own posts and visits |
| Metrics.NumbersCount | src/core/metrics.py:124-168 | what the numbers count, each thing once: members present anywhere, pods posted in, members who opened an issue of this yard, replies by email from its members to posts in it |
| Metrics.OrderAndRepeatsDoNotMatter | src/core/metrics.py:40-168 | rolling up the same yards for one week in any order with any repeats leaves the same presence and yard rows |
| Metrics.RowBounds | src/core/metrics.py:141-168 | the published numbers keep their bounds |
| Metrics.Rollups.RollupWeek | src/core/metrics.py:40-168 | the counting and upserting loops leave exactly the rows the order result is about |
| Metrics.CountAnswered | src/core/metrics.py:105-122 | the loop counts the posts somebody other than their author answered within a week |

## Left out

- Real cryptography: scrypt, AES-GCM and SHA-256 are ideal, as said above; associated data is text rather than bytes.
- Reads while decrypting: they return the asked bytes or all that is left, as a buffered file does; short reads are modelled while encrypting.
- DemoData.Instance.Preview: the auth.User line of the counts, which lives outside the collected closure.
- DemoData.Instance.Wipe: the user, session and file lines of the receipt and their deletion, likewise outside, and the reassignment of pods whose owner goes.
- DemoMarking.Marker.Apply: the second look and the stamping are one step here. In the source the query meant to lock the yards is built and never evaluated (src/core/demo_marking.py:357), so another writer can come between.
- Wipe and marking: the whole of each is one transaction, so what other writers do between its statements is not modelled; the texts that explain what was spared are not either.
- Text.Strip: covers ASCII white space; Feed.ParseInt covers ASCII digits.
- due_recipients: any schedule of sends is allowed, which includes every schedule the cadence gives; the supersession of reply addresses, the rendering of a message, token expiry and the first-use stamp, and the names of arrivals are not modelled.
- DigestSend.EveryRunKeepsInv: a restore appears by the links it voids; that it also rewinds subscriptions, issues and deliveries to the archive's is not an act here.
- Digesting.Confirmed: a confirm token is presented only by somebody a message carrying it went to, since it is never stored or shown elsewhere.
- Credentials: the refusal to mint without a secure base address, link expiry, supervised accounts, and digest-read links' own audience check.
- Credentials.Instance.Restore: a database load that fails half way; whether the media swap and the replay complete is a parameter, and a restore that gets past its refusals replaces the whole database.
- Households.Service.CarryOut: who may act is a parameter, and what a shrink revokes is modelled by the sides it is called with.
- HouseholdConfirm.ActsAreWhatWasShown: takes the requests of a session one at a time, as `HouseholdConfirm.EveryRunKeepsInv` does; overlapping ones are the subject of `HouseholdSession`.
- HouseholdSession: signing out, which empties the session, and a session that ends; both only take keys away.
- HouseholdConfirm.View.ChangeHousehold: how a form is resolved into a proposal; a carried-out act that the household rules then refuse spends its page all the same, and is counted as carried out here.
- Feed.CursorRoundTrip: the timestamp format is a parameter assumed to read back what it printed; drafts, media layout, reactions and the stored last-seen time are not modelled.
- Invites: sign-up beyond the membership, and the expiry bounds checked when minting.
- Inbound.PostedExactly: a delivery by webhook runs in the request's transaction, where a crash leaves no ledger row either; the crash here is that of the poll.
- Inbound.Processed: the MIME walk, the attribution pattern and the set of kept characters are parameters, as are the two cache counters' values when a message arrives.
- Media.CommittedPurgeTakesItsFiles: a row's files are those it was added with; files a transcode adds later are the subject of `Renditions`, for one row.
- Media.RowGoesExactlyWithItsPurge: likewise.
- Media: encoding; the token a file is named by is a value never used before.
- Metrics: the per-pod rows, whose counts are per yard and so are no part of the order result.
- Pages, forms, flash messages, URL configuration, network fetches and worker processes.
