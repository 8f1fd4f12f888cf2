# pool-dance: a verified model

pool-dance is a small Bitcoin mining pool. It fetches work from an upstream node, hands it to miners, checks
the shares they send back, and keeps a log of each round. This project models four cooperating parts of it
and the byte arithmetic under them, and proves what they keep over every run.

* **Share validator** (`ShareRules`, `ShareTheorems`, `ShareCodes`, `WorkValidators`): two generations of tracked work, a nonce
  list per item, a cheap check on arrival, a hash check on a worker thread, rotation at every block change.
* **Hex and headers** (`HexBytes`, `Headers`, `Common`): in-place swaps of hex pairs, the pair-by-pair decoder, the
  80-byte header a share stands for, the nonce used to detect duplicates, the comparison with the target.
* **File logger and round manager** (`LogRules`, `LogTheorems`, `FileLoggers`): a queue, a staging buffer, one
  stream operation at a time, flush, freeze and thaw, and the delayed copy-and-truncate that ends a round.
* **Work cache, server queues and the main program** (`PoolRules`, `PoolTheorems`, `PoolHistory`,
  `UpstreamServices`, `PoolServers`, `PoolDances`): prefetching with a 32-bit counter, the request queue and the long-poll list,
  and the scheduled `serve_work` callbacks that match requests with items.

Every part comes as a machine over events (a `State` and a `Step`), theorems about all its runs, and a class with
the program's own fields whose methods change them in place. A method's postcondition says which step of the
machine it performs, so what is proved about runs holds of the class. The event loop is cooperative, so one
callback is one step; completions of I/O, replies, closing connections and worker threads are events that may
come in any order. The main results on runs are told from the events alone, without the functions of the machine:
the code of every share (`ShareCodes.CodeFromEvents`), the bytes of the log (`LogTheorems.EveryLineInOrder`), the
waiting long polls, requests and items, and what the validator is told (`PoolHistory`).

## What the proofs found

* A block found while an earlier truncation waits out its one-second delay upsets the logger, and nothing else the
  round manager does can (`LogTheorems.BlockDuringDelay`, `RoundsArchived`). With nothing staged, the logger then
  waits for a flush that nothing will ever complete, and no entry is written again (`SecondBlockWedges`,
  `WedgedForever`). With bytes staged, it is a race: the earlier round's truncation is refused exactly if its delay
  ends before the new block's write and flush are done (`StagedBlockRefusal`). If it is carried out, the new block's
  copy always reaches past its freeze, to the line that starts the round (`StagedBlockPastFreeze`); if it is refused,
  exactly when something is logged during the new block's own delay (`RefusedPastFreeze`; `StagedBlockMixesRounds` is
  such a run, and `WritesFail` one that gets bytes staged).
* The archive of a round holds the whole line announcing its block, with all that was logged before, exactly when the
  logger was idle as the block was found and nothing was still staged as its flush completed (`BlockLineArchived`). It
  happens that it holds none of the line although the logger was idle: both writes fail (`WritesFail`). A block found
  while the flush of another is pending gets no archive (`BlockDuringFlush`).
* A copy ends where a log entry ends, the last one taken from the queue, exactly when nothing was staged as its flush
  completed (`EntryBoundary`). A flush asked of a logger with a write in flight is given one more write for what that
  one did not land; a flush asked of an idle logger with bytes staged is given no second one (`FlushLeavesBytes`).
* A logger made from the stream of a newly created round file has no file, and never archives a round
  (`NoFileNoArchive`).
* A share is accepted at most once for each root and nonce only as long as the root is not handed out again:
  tracking a root anew forgets its nonces (`AtMostOneAcceptance`, and its converse `HandedOutAgain`).
* The nonce kept for detecting duplicates and the nonce in the header are read by two different readers. They agree
  on hex digits, but one header has spellings that they read differently, and then it is accepted once for each
  (`TwoSpellingsAccepted`; `HeaderAcceptedAgain` and `AcceptedNext` say exactly when, `Headers.NonceOfHeader`
  says which fields are read alike). Roots handed out in one spelling and nonce fields read alike, such as all of hex
  digits, rule it out (`NoHeaderAcceptedTwice`).
* A share with the wrong user or previous hash still uses up its nonce: the right one that follows is a duplicate
  (`ShareCodes.RejectedShareUsesNonce`).
* The cache never asks again for work whose request failed; once every slot is lost it serves nobody until the
  next block (`CacheIsDry`, `DryUntilNextBlock`).
* The message of a share above the target says its hash is not less than the target, but the code accepts a hash
  equal to it (`pool-dance/work-validator.c:425-430`). The model follows the code.

## Model

| member | source | states |
|---|---|---|
| HexBytes.HexToBin | pool-dance/work-validator.c:99-121 | succeeds exactly when both characters of every pair are consumed; then the bytes are those the pairs stand for; on failure says which bytes were written; nothing else changes |
| HexBytes.DecodePrint | pool-dance/work-validator.c:99-121 | decoding the hex print of any bytes, each digit in either case, gives the bytes back |
| HexBytes.SwapHexBytes2 | pool-dance/work-validator.c:83-97 | reverses the pairs of the range, odd lengths included, and changes nothing outside it |
| HexBytes.SwapIsItsOwnInverse | pool-dance/work-validator.c:83-97 | reversing a range twice restores the data |
| HexBytes.SwapWords | pool-dance/work-validator.c:403-405 | the swap loop reverses the pairs of every eight-character word |
| HexBytes.SwappedWord | pool-dance/work-validator.c:403-405 | word g of the swapped data is word g backwards, for every g |
| HexBytes.SwapThenDecode | pool-dance/work-validator.c:403-409 | swapping words and decoding commute, in success and in value |
| HexBytes.ReverseWords | pool-dance/work-validator.c:577-581 | the loop stores the eight-character words of the first 64 characters in reverse order |
| HexBytes.WordsThenBytesReversed | pool-dance/work-validator.c:404-409 | reversing the words and then the bytes within words is reversing all bytes, for any number of words |
| Headers.LittleIsInjective | pool-dance/work-validator.c:366-378 | byte strings of one length with the same little-endian value are equal |
| Headers.HighestDifferenceDecides | pool-dance/work-validator.c:366-378 | the highest differing byte orders two little-endian numbers |
| Headers.CompareInvertedHashes | pool-dance/work-validator.c:366-378 | the result is the sign of the difference of the two hashes as little-endian numbers |
| Headers.EasyTargetMeaning | pool-dance/main.c:39 | the easy target is 2^224 - 1, so a hash is at most it exactly when its last four bytes are zero |
| Headers.HeaderDecodes | pool-dance/work-validator.c:400-409 | the header exists exactly when the first 160 characters parse, and then is the decoded data with each word reversed |
| Headers.HeaderWord | pool-dance/work-validator.c:400-409 | word g of the header comes from characters 8g to 8g + 8 alone |
| Headers.HeadersAgree | pool-dance/work-validator.c:400-409 | data equal on a range of words give headers equal on that range |
| Headers.PreviousHashBytes | pool-dance/work-validator.c:268-287 | a share that passes the comparison with the stored hash hashes, in bytes 4 to 36, the node's block hash fully backwards |
| Headers.NonceOfHeader | pool-dance/work-validator.c:200-210 | for every nonce field that decodes, the nonce kept for duplicates is the big-endian value of header bytes 76 to 80 exactly when the field is plain, zero, or one of a few after a minus sign |
| Headers.NegatedReadersAgree | pool-dance/work-validator.c:200-210 | the fields after a minus sign that both readers take for the same word, by how many of their bytes are read |
| Headers.NoncesEqualIffBytesEqual | pool-dance/work-validator.c:200-210 | of fields that are read alike, two such nonces are equal exactly when the hashed nonce bytes are |
| ShareTheorems.SubmitDecides | pool-dance/work-validator.c:459-497 | when a share comes in its code is already determined, whether it is answered at once or queued |
| ShareTheorems.DecisionStands | pool-dance/work-validator.c:380-497 | no event of any kind changes a decided code |
| ShareTheorems.WorkerSettles | pool-dance/work-validator.c:443-457 | the thread that finishes a queued share settles it for good |
| ShareTheorems.VerdictFixedAtArrival | pool-dance/work-validator.c:380-497 | the code a share gets is the one its arrival state prescribes, whatever comes after; it has it at once if the cheap check fails |
| ShareTheorems.SettledByWorker | pool-dance/work-validator.c:443-457 | once its thread is done a share has exactly the prescribed code |
| ShareTheorems.StaysSpent | pool-dance/work-validator.c:242-266 | a nonce recorded for a root stays recorded, or the root unknown, until the root is handed out again |
| ShareTheorems.AtMostOneAcceptance | pool-dance/work-validator.c:242-266 | over any run two shares with the same root and nonce both succeed only if the root was handed out again in between |
| ShareTheorems.AcceptedNext | pool-dance/work-validator.c:242-266 | right after an accepted share, one with the same header and fields is accepted too exactly if it decodes and its nonce, as read for duplicates, is new |
| ShareTheorems.HeaderAcceptedAgain | pool-dance/work-validator.c:242-266 | over runs: exactly if, with the root not handed out again, no block changed, the hash held is the same, it decodes and no share took that nonce |
| ShareTheorems.HeaderAcceptedTwice | pool-dance/work-validator.c:335-337 | one header accepted twice, its root not handed out again, means roots spelled differently or nonces read differently |
| ShareTheorems.NoHeaderAcceptedTwice | pool-dance/work-validator.c:335-337 | with roots handed out in one spelling and nonce fields read alike, a header is accepted twice only if its root was handed out again |
| ShareTheorems.TwoSpellingsAccepted | pool-dance/work-validator.c:99-121 | a run that accepts one header twice, for any item of the latest block: the nonce one is spelled with and without a space |
| ShareTheorems.HandedOutAgain | pool-dance/work-validator.c:515-546 | after any accepted share, handing its root out again gets the same share accepted a second time |
| ShareTheorems.TablesHoldTwoEpochs | pool-dance/work-validator.c:610-630 | the two tables hold exactly the roots sent in this epoch and in the one before, each with the item's user, version and timestamp |
| ShareTheorems.CurrentNeverMarked | pool-dance/work-validator.c:222-235 | no entry of the current table is ever marked possibly stale |
| ShareTheorems.KnownRoots | pool-dance/work-validator.c:212-240 | a root is found in the current or previous table exactly when it was sent in that epoch |
| ShareTheorems.EpochOfVerdict | pool-dance/work-validator.c:434-441 | success means the item was sent since the last block change, stale exactly one change before, and older roots are invalid |
| ShareTheorems.HashHeld | pool-dance/work-validator.c:548-586 | a hash is held exactly once a reply came, and it is that of the last one |
| ShareTheorems.PreviousHashHeld | pool-dance/work-validator.c:615-616 | a previous hash is held exactly if a reply came before the last block change, and it is that of the last such reply |
| ShareTheorems.FieldsBind | pool-dance/work-validator.c:315-357 | data passing the string checks give a header with the item's version, root and timestamp and the block hash backwards |
| ShareTheorems.AcceptedShareBinds | pool-dance/work-validator.c:289-364 | an accepted share hashes a header bound to an item sent to its user in this epoch, and to the latest block hash, within the target |
| ShareTheorems.StaleShareBinds | pool-dance/work-validator.c:350-357 | a stale share is bound the same way to an item of the epoch before and the hash held when it ended |
| ShareTheorems.NoncesInStep | pool-dance/work-validator.c:242-266 | a nonce is appended exactly by a share whose root is known, whose version and timestamp are the entry's and whose nonce is not held, whatever its user and previous hash |
| ShareTheorems.NoncesHeldExactly | pool-dance/work-validator.c:242-266 | the nonces of a known root are exactly those earlier shares took since it was last handed out |
| ShareTheorems.NoncesCounted | pool-dance/work-validator.c:262-263 | a known root holds as many nonces as shares were recorded for it since it was last handed out, which is how many slots the program fills |
| ShareTheorems.CodesExactly | pool-dance/work-validator.c:289-457 | each of success, stale and duplicate holds if and only if its list of conditions does; every other share is invalid |
| ShareCodes.LastSendingHeld | pool-dance/work-validator.c:212-266 | until the second block change after it, what is found under a root is the item last sent under it, with exactly the nonces that shares for it used since, whoever sent them |
| ShareCodes.CodeFromEvents | pool-dance/work-validator.c:289-497 | every share of any length and run has the code told from the events before it: which item was last sent under its root and in which epoch, which shares used its nonce since, the item's user, the node's hash of that epoch, and its header hashed twice |
| ShareCodes.FinalCodeFromEvents | pool-dance/work-validator.c:380-497 | and that is the code it ends with |
| ShareCodes.RejectedShareUsesNonce | pool-dance/work-validator.c:335-357 | a share that answers a known item uses up its nonce even if its user or previous hash is wrong: a later one is a duplicate |
| ShareCodes.BlockNumberHeld | pool-dance/work-validator.c:588-613 | the block number held is that of the last block change |
| WorkValidators.TrackedWork.constructor | pool-dance/work-validator.c:534-541 | a new entry has the item's fields and no nonces |
| WorkValidators.TrackedWork.CheckNonceIsUnique | pool-dance/work-validator.c:242-266 | false exactly for a nonce seen before; otherwise it is appended to the slots |
| WorkValidators.TrackedTables.Get | pool-dance/work-validator.c:212-240 | finds a root in the current table or, marking it, in the previous one; null exactly when in neither |
| WorkValidators.TrackedTables.CheckNonceIsUnique | pool-dance/work-validator.c:242-266 | the nonce joins the one entry found and no other |
| WorkValidators.TrackedTables.Insert | pool-dance/work-validator.c:543 | the root now stands for the new item in the current table |
| WorkValidators.TrackedTables.Rotate | pool-dance/work-validator.c:618-627 | the current table becomes the previous one and an empty one takes its place |
| WorkValidators.WorkValidator.constructor | pool-dance/work-validator.c:123-148 | a validator that knows no work and no hash |
| WorkValidators.WorkValidator.SetTarget | pool-dance/work-validator.c:632-636 | the target is the decoded string; of one that does not decode, the bytes up to the bad pair are taken and the rest kept |
| WorkValidators.WorkValidator.TrackWorkSent | pool-dance/work-validator.c:515-546 | performs the machine's tracking step |
| WorkValidators.WorkValidator.NotifyNewBlock | pool-dance/work-validator.c:610-630 | performs the machine's block-change step |
| WorkValidators.WorkValidator.OnBlockHash | pool-dance/work-validator.c:548-586 | performs the machine's reply step; a failed reply changes nothing |
| WorkValidators.WorkValidator.Find | pool-dance/work-validator.c:212-240 | the entry found is the machine's, and the only change is its mark when it was found in the previous table |
| WorkValidators.WorkValidator.NoteNonce | pool-dance/work-validator.c:335-337 | a nonce that is new joins the entry, before user and previous hash are looked at |
| WorkValidators.WorkValidator.CheckAgainstEntry | pool-dance/work-validator.c:315-357 | version, timestamp, nonce, user and previous hash in this order; a new nonce is kept even if a later check fails |
| WorkValidators.WorkValidator.CheckClaim | pool-dance/work-validator.c:308-357 | the error and the entries are those of the machine; tells whether the entry was marked |
| WorkValidators.WorkValidator.PrevalidateWorkResult | pool-dance/work-validator.c:289-364 | the error, the new entries and the stale mark are those of the machine |
| WorkValidators.WorkValidator.Validate | pool-dance/work-validator.c:459-497 | performs the machine's submission step: an error is delivered, any other share is queued for a thread |
| WorkValidators.WorkValidator.ValidateWorkResultInThread | pool-dance/work-validator.c:380-457 | the code is that of the rebuilt header's double hash against the target and the stale mark |
| WorkValidators.WorkValidator.FinishJob | pool-dance/work-validator.c:380-457 | performs the machine's thread step |
| LogTheorems.StepKeepsCoherence | pool-dance/file-logger.c:86-158 | at every step the buffer is what the write in flight was issued with, a flush in flight has a waiter, and the flags agree with the operation |
| LogTheorems.StepConserves | pool-dance/file-logger.c:86-208 | every step keeps every byte, in order |
| LogTheorems.LinesLogged | pool-dance/file-logger.c:307-322 | over every run the log is the line of every event, in order: each entry with its newline at once and whatever the flags, and the line that starts a round exactly after a copy and truncation that worked |
| LogTheorems.EveryByteInOrder | pool-dance/file-logger.c:86-208 | over every run, truncated copies, file, unwritten bytes and queue together are what was there and the lines of the events, in order |
| LogTheorems.EveryLineInOrder | pool-dance/file-logger.c:307-322 | so from a fresh logger nothing that was logged is lost, doubled or moved |
| LogTheorems.LoggedHolds | pool-dance/file-logger.c:307-322 | an entry logged joins buffer and queue, last, whatever the flags |
| LogTheorems.StepLowersRank | pool-dance/file-logger.c:86-130 | each completion brings a waiting flush nearer or completes it, and no other event sets it back |
| LogTheorems.FlushWithinThree | pool-dance/file-logger.c:86-130 | a waiting flush with an operation in flight is done after at most three completions, whatever their sizes or errors |
| LogTheorems.FlushCanComplete | pool-dance/file-logger.c:330-362 | a requested flush starts an operation or waits on one exactly when one was in flight or bytes were staged; otherwise it is stuck |
| LogTheorems.WriteEnds | pool-dance/file-logger.c:108-127 | a write that ends short while a flush waits is followed by one of the rest if it was in flight when the flush was asked, and otherwise by the flush of the stream |
| LogTheorems.FlushLeavesBytes | pool-dance/file-logger.c:86-158 | over runs: the stream is flushed after one write if the logger was idle or all of it lands, else after exactly two, with staged what the last of them did not land |
| LogTheorems.StepStaysWedged | pool-dance/file-logger.c:330-362 | no event frees a stuck logger |
| LogTheorems.WedgedForever | pool-dance/file-logger.c:330-362 | a stuck logger stays so over every run: no flush completes and no entry leaves the queue |
| LogTheorems.BlockFoundWedges | pool-dance/round-manager.c:226-236 | a found block leaves the logger stuck exactly when it was frozen with nothing staged or in flight; on an unfrozen logger a write is in flight when the flush is requested |
| LogTheorems.SecondBlockWedges | pool-dance/round-manager.c:226-236 | a concrete run: the second block found during the first one's delay |
| LogTheorems.BlockDuringFlush | pool-dance/file-logger.c:343-352 | a block found while a truncation's flush is pending is logged and nothing else happens |
| LogTheorems.BlockDuringDelay | pool-dance/file-logger.c:391-430 | a found block upsets an orderly logger exactly during the delay, and sticks it exactly when moreover nothing is staged |
| LogTheorems.StagedBlockRefusal | pool-dance/file-logger.c:160-208 | a block during the delay with bytes staged: in every run of shares and stream completions up to the end of that delay, the earlier truncation is refused exactly if fewer than two completions came, and otherwise two delays run |
| LogTheorems.StagedBlockPastFreeze | pool-dance/file-logger.c:160-208 | if it comes after both, the logger thaws with the queue drained, and the new copy, whenever made, reaches past its freeze if that truncation succeeded |
| LogTheorems.RefusedPastFreeze | pool-dance/file-logger.c:160-237 | if it was refused, the new copy reaches past its freeze exactly if an entry is logged during the new delay |
| LogTheorems.StagedBlockMixesRounds | pool-dance/file-logger.c:160-237 | one run of the refused kind, with the contents of the new copy |
| LogTheorems.WritesFail | pool-dance/file-logger.c:95-127 | a run from a fresh logger to a delay with the whole block line staged and the file untouched |
| LogTheorems.StepOrderly | pool-dance/file-logger.c:160-237 | as long as no block is found during a delay, frozen always means a flush under way or a delay running, at most one truncation is outstanding, and an idle unfrozen logger has written everything |
| LogTheorems.CopyIsGood | pool-dance/file-logger.c:160-195 | the copy made is the log up to some entry taken before the freeze, short of exactly the bytes staged when the flush completed |
| LogTheorems.RoundsArchived | pool-dance/file-logger.c:160-237 | over every run without a block during a delay, each copy is a prefix of what remains of the log, holds no entry logged after the freeze, is short of exactly the bytes staged when its flush completed, and ends where the last entry taken from the queue ends exactly when there were none |
| LogTheorems.FrozenRun | pool-dance/file-logger.c:138-148 | from the freeze to the end of the delay nothing leaves the queue |
| LogTheorems.DelayRun | pool-dance/file-logger.c:225-236 | nothing is written or staged during the delay |
| LogTheorems.EntryBoundary | pool-dance/file-logger.c:58-84 | from the completed flush to the copy: the copy is the file and the shortfall the buffer of that moment, so it ends where the last entry taken from the queue ends exactly when nothing was staged |
| LogTheorems.NoFileNoArchive | pool-dance/file-logger.c:407-416 | without a file no run ever copies or truncates |
| LogTheorems.RequestsAnswered | pool-dance/file-logger.c:58-84 | over every run each flush request taken is answered once or waits, and each truncation asked for waits for its flush, waits out its delay or had it end |
| LogTheorems.RefusedTruncationFreezes | pool-dance/file-logger.c:343-352 | a truncation asked for during another caller's flush is refused but leaves the logger frozen, until another one or a thaw |
| LogTheorems.FreezeThenThaw | pool-dance/file-logger.c:372-389 | between freeze and thaw no entry leaves the queue, and the thaw drains it if the stream is idle |
| LogTheorems.BlockLineStaged | pool-dance/round-manager.c:220-236 | announcing a block stages its line exactly when the logger was idle |
| LogTheorems.BlockLineArchived | pool-dance/round-manager.c:220-236 | from a found block to the copy of its round: the copies hold everything up to the block line exactly when the logger was idle and nothing was staged at the end of the flush |
| FileLoggers.OutputStream.Land | pool-dance/file-logger.c:150-157 | bytes of the issued write reach the file in order |
| FileLoggers.OutputStream.Truncate | pool-dance/file-logger.c:187-194 | the file is emptied only if nothing is pending |
| FileLoggers.FileLogger.constructor | pool-dance/file-logger.c:241-259 | a logger with nothing queued, staged or in flight |
| FileLoggers.FileLogger.WriteAll | pool-dance/file-logger.c:132-158 | the loop moves the whole queue to the buffer when allowed, then issues one write of the buffer |
| FileLoggers.FileLogger.Log | pool-dance/file-logger.c:307-322 | performs the machine's logging step |
| FileLoggers.FileLogger.OnLogEntryWritten | pool-dance/file-logger.c:86-130 | performs the machine's step for a finished write |
| FileLoggers.FileLogger.OnFlush | pool-dance/file-logger.c:58-84 | performs the machine's step for a finished flush |
| FileLoggers.FileLogger.RequestFlush | pool-dance/file-logger.c:330-362 | performs the machine's flush request; refused exactly when one is pending |
| FileLoggers.FileLogger.Freeze | pool-dance/file-logger.c:372-376 | only the frozen flag changes |
| FileLoggers.FileLogger.Thaw | pool-dance/file-logger.c:378-389 | performs the machine's thaw |
| FileLoggers.FileLogger.CopyAndTruncate | pool-dance/file-logger.c:391-430 | performs the machine's truncation request; nothing without a file |
| FileLoggers.FileLogger.CopyThenTruncate | pool-dance/file-logger.c:160-195 | a copy is recorded with its content, and the file emptied only after it |
| FileLoggers.FileLogger.CopyAndTruncateOnTimeout | pool-dance/file-logger.c:160-208 | performs the machine's timeout, with the round manager's callback |
| FileLoggers.RoundManager.OnWorkValidated | pool-dance/round-manager.c:171-189 | a share is logged |
| FileLoggers.RoundManager.OnBlockFound | pool-dance/round-manager.c:209-238 | the block is logged and a truncation requested |
| PoolTheorems.CountOneMore | pool-dance/upstream-service.c:129-132 | one more call raises the wrapped count by one, even across the wrap of the counter |
| PoolTheorems.FlushKeepsLaw | pool-dance/upstream-service.c:176-186 | a block change keeps the counter law and asks for the minimum number of items |
| PoolTheorems.ReplyKeepsLaw | pool-dance/upstream-service.c:162-174 | a reply keeps the law and never asks for more, even when the counter underflows |
| PoolTheorems.FailureKeepsLaw | pool-dance/upstream-service.c:152-161 | a failure keeps the law and asks for nothing |
| PoolTheorems.PopKeepsLaw | pool-dance/upstream-service.c:200-210 | taking an item keeps the law and asks for exactly one more |
| PoolTheorems.CounterIsTruth | pool-dance/upstream-service.c:157-160 | the counter is the number of calls in flight exactly when failures since the last block match those in flight at it, modulo 2^32 |
| PoolTheorems.CacheIsDry | pool-dance/upstream-service.c:157-160 | nothing is cached or coming exactly when every slot was lost to a failure |
| PoolTheorems.DryUntilNextBlock | pool-dance/upstream-service.c:157-160 | from then on nothing is served before the next block, in any run |
| PoolTheorems.ConversionHolds | pool-dance/pool-server.c:393-407 | releasing long polls gives each one request and changes no reference count |
| PoolTheorems.ConversionInOrder | pool-dance/pool-server.c:409-422 | long polls join the queue once each, in the order of the list, behind the requests there |
| PoolTheorems.CloseKeepsLedger | pool-dance/pool-server.c:226-249 | a close drops all of the connection's calls, gives back exactly their references and keeps the ledger |
| PoolTheorems.OneCallOnePlace | pool-dance/pool-server.c:226-281 | a connection that made one call is in exactly one of list, queue, answered or dropped, and referenced exactly in the first two |
| PoolTheorems.MatchKeepsLaw | pool-dance/main.c:162-199 | serving keeps counter law, ledger, arrival order, single use of items and agreement of sent and tracked |
| PoolTheorems.BlockKeepsLaw | pool-dance/main.c:227-239 | a block change keeps all of it, and leaves the cache empty when the long polls join the queue |
| PoolTheorems.StepKeepsPoolLaw | pool-dance/main.c:147-239 | so does every event; in particular a callback is scheduled whenever both queues hold something |
| PoolTheorems.PoolLawAlways | pool-dance/main.c:147-239 | and every run |
| PoolTheorems.AnsweredInOrder | pool-dance/pool-server.c:424-434 | requests are answered in the order they joined the queue, none twice, ahead of all still queued |
| PoolTheorems.DrainsInPairs | pool-dance/main.c:162-199 | with nothing new arriving, as many firings as there are pairs empty one queue, matching first with first, and each asks upstream once |
| PoolTheorems.SentItemKnownForTwoEpochs | pool-dance/main.c:182-192 | an item whose send succeeded is tracked in the same step and found until the second block change after |
| PoolTheorems.AcceptedShareWasServed | pool-dance/main.c:147-199 | a share that would be accepted as it comes in answers an item that had by then been served to the same user |
| PoolHistory.LongPollsListed | pool-dance/pool-server.c:239-281 | over every run the long-poll list is those made since the last block change and not closed since, in the order they were made |
| PoolHistory.LongPollsAnsweredInOrder | pool-dance/pool-server.c:393-434 | long polls open at a block change are served in the order they were made, and none is passed over unless its connection closed |
| PoolHistory.RequestAccounted | pool-dance/pool-server.c:226-237 | after any run a queued request is queued still exactly if it was neither served nor closed |
| PoolHistory.CallAccounted | pool-dance/pool-server.c:193-208 | a getwork call queues one request that is no long poll's and schedules one callback |
| PoolHistory.CallsCounted | pool-dance/pool-server.c:193-281 | the calls and answers of a connection in the ledger are those of the run |
| PoolHistory.ItemsAreReplies | pool-dance/upstream-service.c:162-166 | every item cached or served is a reply of the node, as it came |
| PoolHistory.NoItemLost | pool-dance/upstream-service.c:176-210 | no item is lost except by a block change, and none is cached past one |
| PoolHistory.UpstreamCallsCounted | pool-dance/upstream-service.c:126-186 | over every run each call upstream is in flight until its reply or failure; failures and calls in flight are counted from the last block change |
| PoolHistory.SourcesCounted | pool-dance/main.c:197-225 | each call and reply schedules one callback, which ends with its first firing that leaves a queue empty |
| PoolHistory.CurrentBlockIsLast | pool-dance/main.c:227-239 | the block held is the last one |
| PoolHistory.ValidatorTold | pool-dance/main.c:147-239 | apart from what was sent, the validator is told of every result, finished thread, hash and block of a run, in order, and of nothing else |
| PoolHistory.ResultGetsItsCode | pool-dance/main.c:147-160 | a result that comes in has, once its thread is done or the cheap check fails, the code its arrival state prescribes |
| PoolHistory.ServedBeforeAccepted | pool-dance/main.c:147-199 | a result that ends accepted answers an item served to its user before it came in |
| UpstreamServices.UpstreamService.FillWorkQueue | pool-dance/upstream-service.c:126-140 | the loop makes exactly the calls missing to the minimum, in 32-bit arithmetic |
| UpstreamServices.UpstreamService.NotifyNewBlock | pool-dance/upstream-service.c:176-186 | performs the machine's flush |
| UpstreamServices.UpstreamService.OnGetworkReply | pool-dance/upstream-service.c:142-174 | performs the machine's reply: newest item first |
| UpstreamServices.UpstreamService.OnGetworkFailure | pool-dance/upstream-service.c:152-161 | the counter stays as it was |
| UpstreamServices.UpstreamService.GetWork | pool-dance/upstream-service.c:200-210 | takes the head and refills |
| PoolServers.PoolServer.OnGetworkCall | pool-dance/pool-server.c:193-208 | the call joins the queue with one reference |
| PoolServers.PoolServer.OnLongPollRequest | pool-dance/pool-server.c:269-280 | the connection joins the list with one reference |
| PoolServers.PoolServer.LongPollingConnToGetwork | pool-dance/pool-server.c:393-407 | the request's reference replaces the list's |
| PoolServers.PoolServer.NotifyNewBlock | pool-dance/pool-server.c:409-422 | the loop converts the whole list in order and empties it |
| PoolServers.PoolServer.DropRequests | pool-dance/pool-server.c:226-237 | exactly the connection's requests leave the queue, with one reference each |
| PoolServers.PoolServer.DropLongPolls | pool-dance/pool-server.c:239-249 | exactly the connection's entries leave the list, with one reference each |
| PoolServers.PoolServer.OnConnectionClose | pool-dance/pool-server.c:226-249 | performs the machine's close |
| PoolServers.PoolServer.GetWorkRequest | pool-dance/pool-server.c:430-434 | pops the head |
| PoolServers.PoolServer.ReleaseRequest | pool-dance/pool-server.c:94-132 | gives back the request's reference |
| PoolDances.PoolDance.constructor | pool-dance/main.c:318-375 | an empty pool with the easy target |
| PoolDances.PoolDance.OnGetwork | pool-dance/main.c:213-225 | queues the request and schedules a callback |
| PoolDances.PoolDance.OnWorkReply | pool-dance/main.c:201-211 | caches the item and schedules a callback |
| PoolDances.PoolDance.ServeNext | pool-dance/main.c:175-195 | takes one request and one item, tracks the item exactly if it was sent, releases the request |
| PoolDances.PoolDance.ServeWork | pool-dance/main.c:162-199 | serves if it can; stays scheduled exactly while both queues hold something |
| PoolDances.PoolDance.OnBlockChange | pool-dance/main.c:227-239 | performs the machine's block change in all three parts; the validator stays where its events lead |
| PoolDances.PoolDance.OnPutwork | pool-dance/main.c:147-160 | hands the share to the validator |

## Left out

- SHA-256: a parameter, any function from bytes to 32 bytes (FIPS 180-4, section 6.2, gives the real one). Nothing proved here depends on which.
- JSON, HTTP, RPC and signal plumbing, configuration, daemon and privileges, timestamps and the format of log lines: an item is its 256-character data, a log line is any string, and replies and completions are events that never call back into their caller.
- pool-dance/event-dispatcher.c, pool-dance/block-monitor.c and submitting accepted work upstream: forwarding only. Block changes come with any numbers.
- Reference counts of results and requests: always one while they are queued, so only the references on connections are counted.
- WorkValidators.TrackedWork.CheckNonceIsUnique: requires a free one of the sixteen nonce slots for a new nonce where the program does not look, because what a seventeenth nonce overwrites is not part of this model. The machine's nonce list has no bound; its theorems, such as CurrentNeverMarked and CodesExactly, speak of the program only while no entry takes more than sixteen nonces, which NoncesCounted counts.
- WorkValidators.TrackedTables.CheckNonceIsUnique: requires a free one of the sixteen nonce slots, as above.
- WorkValidators.WorkValidator.NoteNonce: requires a free one of the sixteen nonce slots, as above.
- WorkValidators.WorkValidator.CheckAgainstEntry: requires a free one of the sixteen nonce slots, as above.
- WorkValidators.WorkValidator.CheckClaim: requires a free one of the sixteen nonce slots, as above.
- WorkValidators.WorkValidator.PrevalidateWorkResult: requires a free one of the sixteen nonce slots, as above, and a result that is not yet marked stale, though the program leaves the mark of a new result uninitialised.
- WorkValidators.WorkValidator.Validate: requires a free one of the sixteen nonce slots and an unmarked result, as above.
- PoolDances.PoolDance.OnPutwork: requires a free one of the sixteen nonce slots and an unmarked result, as above.
- Headers.NonceOfHeader: for nonce fields that decode; no header is hashed from others.
- Headers.NoncesEqualIffBytesEqual: for fields on which the two readers agree; TwoSpellingsAccepted shows the equivalence fails for others.
- ShareTheorems.NoHeaderAcceptedTwice: for nonce fields read alike and roots in one spelling; HeaderAcceptedTwice, HeaderAcceptedAgain and TwoSpellingsAccepted say what happens for others.
- WorkValidators.WorkValidator.TrackWorkSent: takes items of 256 characters, as the program asserts of its upstream.
- WorkValidators.WorkValidator.OnBlockHash: takes replies of at least 64 characters; what a shorter one would read is not part of this model.
- WorkValidators.WorkValidator.SetTarget: takes strings of at least 64 characters; what a shorter one would read is not part of this model.
- Block hashes are values: the program lets the previous hash be the same memory as the current one until the node replies, and frees it at the next block change if no reply came. Sharing and freeing are not modelled.
- The two hash tables of the validator are grouped in one object, and the four worker threads are completions in any order; how threads share memory is not modelled.
- A client's credentials belong to its connection and do not change between calls.
- Tickets, serials and submission numbers stand for the identity of requests, items and results.
- A failed write is a completion after which no further bytes land. That the stream refuses a second operation while one is pending is a precondition of its methods.
- FileLoggers.FileLogger.CopyAndTruncateOnTimeout: the copy is of exactly what has landed in the file, and copying and truncating are one step.
- Freeing of the parts when the program ends.
