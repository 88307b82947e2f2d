# A model of the SMB2/3 server's core, with proofs

The server keeps sessions, trees and open files for many connections at once, shares one byte-range
lock table and one oplock table between them, answers chains of requests with chains of responses,
pages directory listings, finishes CHANGE_NOTIFY requests asynchronously, and signs and encrypts with
its own AES-CMAC and AES-CCM. This project models those parts and proves what they promise, over every
input, every run or every reachable state.

How the parts fit together:

- `Bytes`, `FileIds`, `Headers`: little-endian fields, exclusive-or, file identifiers, the 64-byte header.
- `Locks`: the lock manager and one LOCK request. `LockRequests`: when a request is all or nothing.
- `ServerState`, `ServerInvariant`, `ServerSteps`, `ServerRuns`: connections interleaving on the shared
  tables, one step per mutex-protected action, backend call or channel send, and what holds in every
  reachable state. `ServerAccess`, `ServerShield`: locks granted between the check of a READ or WRITE and
  its call to the backend. `ServerProgress`: handlers that wait for ever. `ServerWraps`: counters that come
  around. `ServerHistory`: what sessions and deletions owe to the steps of a run. `ServerExamples`: the first steps of the runs these modules construct.
- `Compound`: the compound loop as an imperative method and as a step function, over arbitrary
  handlers. `CompoundRuns`: failures, file-id inheritance, credits. `CompoundEvents`: which requests get to a
  handler, judged by their bytes, and what becomes of its answer. `CompoundChain`: the response chain
  the client follows. `CompoundRoom`: exactly which request chains are served as written.
  `CompoundNotify`: what a CHANGE_NOTIFY can do to the connection and to the front of the output.
- `DirEntries`, `Paging`: names, the two entry layouts, linked pages, and the QUERY_DIRECTORY cursor.
  `CompoundPaging`: a listing behind another response. `ReadReply`: the READ response, written in place.
- `Async`: the table of pending operations and the register/watch/cancel/drain/teardown protocol.
- `Ccm`, `CcmInPlace`, `Transform`: RFC 3610, the in-place routines that refine it, and the transform
  frame around them. `Cmac`: RFC 4493 and message signatures. `MacBinding`: what both MACs bind. The block cipher is an arbitrary function
  from 16 bytes to 16 bytes.
- `Negotiate`: the negotiate response and its contexts. `Glob`: the wildcard matcher, on bytes.
  `GlobNames`: the same on characters, through UTF-8.

Where the code does less than it is meant to, the code is kept and the exact condition proved:

- Byte by byte the wildcard matcher agrees with the meaning of patterns on a name, for every pattern, if and
  only if the name has no `*` (`Glob.RightOnNameIffNoStar`). On characters it does if and only if the name has
  no `*` and no character of more than one byte (`GlobNames.RightOnNameIff`): an accented letter is refused by
  `?` and accepted by `??` (`GlobNames.AccentedLetterTakesTwo`).
- A LOCK request that takes no lock after its first unlock is all or nothing if and only if no range it
  names both could be held and would be left changed at its stop (`LockRequests.AllOrNothingIff`); a lock
  refused behind an unlock loses a range (`LockRequests.ConflictAfterUnlockLoses`), and a request that starts
  with an unlock and comes to a lock is never all or nothing (`LockRequests.UnlockFirstNeverAllOrNothing`).
- The lock table is asked before a READ or WRITE and not held during it, so an I/O can land inside another
  open's lock (`ServerAccess.WriteLandsInsideLock`). An access of at least a byte is safe from this however the
  run goes on if and only if the open has itself locked every byte of it before it asks, provided no byte of a
  READ is at that moment under other opens' locks alone (`ServerShield.ProtectedIffCovered`).
- A handler has no step if and only if it waits to notify a live connection whose channel is full
  (`ServerProgress.StuckIffBlocked`); a connection can come to wait for itself
  (`ServerProgress.SelfDeadlockIsReached`).
- A CREATE or TREE_CONNECT leaves every lock and oplock with an open if and only if the identifier it gives
  out has nothing hanging on it (`ServerRuns.CreateKeepsNamesIff`, `ServerRuns.ConnectTreeKeepsNamesIff`); runs
  in which it does are given (`ServerWraps.OpenCounterWrapIsReached`, `ServerWraps.TreeCounterWrapIsReached`).
- A message ends its connection exactly at a CHANGE_NOTIFY of at least 96 bytes that gets to its handler on a
  tree that is not there (`CompoundNotify.PanicsIffTreeless`). What a message sends back starts with a header if
  and only if its first request is not a refused CHANGE_NOTIFY (`CompoundNotify.StartsWithHeaderIff`).
- The output buffer offset of QUERY_DIRECTORY is right if and only if the response starts at a multiple of
  65536 (`Paging.OffsetRightIff`).
- Credits are conserved in every run if and only if the maximum is between 1 and 65535
  (`CompoundRuns.CreditsConservedIff`).
- A chain of requests, each at least a header long, is answered request by request under all handlers that
  set the file id as CREATE does if and only if every related request has room for its file id or cannot be
  given one that shows in the next header (`CompoundRoom.ServesIffSheltered`).
- Names survive UTF-16 if and only if they stay in the Basic Multilingual Plane
  (`DirEntries.NameRoundTripIff`); sealed messages open if and only if they are shorter than 2^32 bytes
  (`Transform.OpenSealIff`); contexts survive if and only if number and lengths fit 16 bits
  (`Negotiate.ContextsRoundTripIff`); async ids differ as long as the 64-bit counter has not come around
  (`Async.IdsDistinctIff`).

## Model

| member | source | states |
|---|---|---|
| `Glob.MatchGlob` | examples/mem-backend/main.go:273-296 | the greedy loop over bytes ends on every input; it accepts only names in the pattern's bytewise meaning, and on a name without `*` exactly those |
| `Glob.ScanDecides` | examples/mem-backend/main.go:273-296 | backtracking to the last star alone decides the declarative meaning, byte by byte, for names without `*` |
| `Glob.Sound` | examples/mem-backend/main.go:277-290 | an accepted name is in the bytewise meaning, literal stars or not |
| `Glob.RightOnNameIffNoStar` | examples/mem-backend/main.go:278 | byte by byte the matcher is right about every pattern on a name if and only if the name has no `*` |
| `GlobNames.RightOnNameIff` | examples/mem-backend/main.go:273-296 | on the UTF-8 of names and patterns, the matcher is right about every pattern on a name if and only if the name has no `*` and only characters below 0x80 |
| `GlobNames.SameMeaningWithoutAny` | examples/mem-backend/main.go:276-290 | for a pattern without `?` the bytewise meaning is the meaning on characters, on every name |
| `GlobNames.RightWithoutAny` | examples/mem-backend/main.go:273-296 | so about a pattern without `?` the matcher is right on every name without `*`, whatever its characters |
| `GlobNames.AccentedLetterTakesTwo` | examples/mem-backend/main.go:277 | the matcher refuses `?` and accepts `??` on a letter of two bytes, and the meaning is the other way round |
| `Locks.LockManager.constructor` | smb/server/lock_ioctl.go:32-41 | a new manager holds nothing |
| `Locks.LockManager.ConflictsWith` | smb/server/lock_ioctl.go:43-55 | the loop finds a conflicting entry if there is one |
| `Locks.LockManager.CheckConflict` | smb/server/lock_ioctl.go:57-72 | the loop finds an entry that forbids the access if there is one |
| `Locks.LockManager.TryLock` | smb/server/lock_ioctl.go:74-83 | takes the range exactly when nothing conflicts, and else leaves the table |
| `Locks.LockManager.Release` | smb/server/lock_ioctl.go:85-95 | the first entry with this file and range goes, in place, and no other |
| `Locks.LockManager.ReleaseAll` | smb/server/lock_ioctl.go:97-107 | all entries of the file go, the others keep their order |
| `Locks.AdmittedIffConsistent` | smb/server/lock_ioctl.go:43-55 | the conflict test admits an entry if and only if the table with it is still safe |
| `Locks.HeldAfterLock` | smb/server/lock_ioctl.go:74-83 | a lock adds one range to its own file's holdings and touches no other file's |
| `Locks.HeldAfterUnlock` | smb/server/lock_ioctl.go:85-95 | in a safe table, removing the first match removes exactly the range named |
| `Locks.HeldAfterUnlockAll` | smb/server/lock_ioctl.go:97-107 | afterwards the file holds nothing and every other file what it held |
| `Locks.HolderNotRefused` | smb/server/lock_ioctl.go:57-72 | inside its range a holder may read, and write if the range is exclusive |
| `Locks.Undo` | smb/server/lock_ioctl.go:122-124 | the rollback loop unlocks the acquired elements in order |
| `Locks.HandleLock` | smb/server/lock_ioctl.go:109-152 | the request loop, with its error paths and rollbacks, as a function of the table; and for one element in the numbers of the wire: flag 4 removes the first entry of the range, else 2 takes it exclusively and 1 shared unless an entry stands against it, else and for an empty or wrapping range the parameter is invalid |
| `Locks.OneElement` | smb/server/lock_ioctl.go:119-149 | the same of the function, for every table and element |
| `Locks.RollBackRestores` | smb/server/lock_ioctl.go:122-143 | unlocking what was acquired gives back the file's multiset of ranges and leaves other files' entries in order |
| `Locks.RequestKeepsTable` | smb/server/lock_ioctl.go:109-152 | any request keeps the table safe and every other file's entries |
| `Locks.RequestOutcome` | smb/server/lock_ioctl.go:119-149 | any request, unlocks included: how far it got under each status, and that the file then holds what the elements carried out made of its ranges, with the locks and not the unlocks taken back after a conflict or an invalid range, and nothing taken back after an element without bits |
| `LockRequests.AllOrNothingIff` | smb/server/lock_ioctl.go:119-149 | a request that takes no lock after its first unlock is all or nothing on every table if and only if it runs to its end, or at its stop no range that could be held beside its locks is left changed |
| `LockRequests.UnlocksLastAllOrNothing` | smb/server/lock_ioctl.go:119-149 | locks followed by valid unlocks are all or nothing |
| `LockRequests.PureLocksAllOrNothing` | smb/server/lock_ioctl.go:119-149 | a failed request of lock elements leaves the file's ranges as they were |
| `LockRequests.ConflictAfterUnlockLoses` | smb/server/lock_ioctl.go:128-143 | whatever else the request holds, a range held and unlocked is lost when a later lock meets another file's range |
| `LockRequests.UnlockFirstNeverAllOrNothing` | smb/server/lock_ioctl.go:128-143 | a request that starts with an unlock and comes to a lock fails on some table and leaves the file holding something else |
| `FileIds.FileIdsCollideIff` | smb/server/status.go:31-37 | two ids agree if and only if session, tree and the counter modulo 2^32 agree |
| `ServerSteps.StepKeeps` | smb/server/dispatch.go:153-401 | every step of every connection, the checks, backend calls and channel sends among them, keeps the invariant of sessions, trees, opens, locks, oplocks, channels and handlers under way, provided it gives out no identifier that something hangs on |
| `ServerSteps.BoundedIsSafe` | smb/server/status.go:31-37 | below 2^64 sessions, 2^32 trees a session and 2^32 opens a tree no step gives out such an identifier |
| `ServerRuns.RunKeepsInv` | smb/server/dispatch.go:16-73 | the invariant holds throughout every interleaved run of such steps |
| `ServerRuns.BoundedRun` | smb/server/status.go:31-37 | every run within the counters' widths is one |
| `ServerRuns.LockTablesAreSafe` | smb/server/lock_ioctl.go:43-107 | in every reachable state no range of a path is empty or wraps, and two that overlap are both shared, or exclusive and of one file |
| `ServerRuns.NoOrphans` | smb/server/dispatch.go:277-401 | every range and oplock names an open of its path, live or being closed by its own connection at that moment |
| `ServerRuns.NoOrphansBetweenHandlers` | smb/server/dispatch.go:198-227 | with no handler under way every range and oplock names a live open |
| `ServerRuns.LiveIdsAreUnique` | smb/server/status.go:31-37 | no two live opens of any connections share an id |
| `ServerRuns.NothingLeftAfterCleanup` | smb/server/server.go:460-477 | after cleanup no range and no oplock of the connection is left |
| `ServerRuns.CreateKeepsNamesIff` | smb/server/dispatch.go:306-310 | a CREATE leaves every range and oplock with an open if and only if its identifier is free, belongs to an open of the same path, or to one that no table names |
| `ServerRuns.CounterWrapOrphans` | smb/server/status.go:31-37 | so the 2^32nd CREATE after a live open orphans what it holds under another path |
| `ServerRuns.ConnectTreeKeepsNamesIff` | smb/server/dispatch.go:221-227 | a TREE_CONNECT does so if and only if no table names an open in the place it gives out |
| `ServerWraps.OpenCounterWrapIsReached` | smb/server/dispatch.go:306-310 | a reachable state, 2^32 CREATEs on one tree, in which the next CREATE orphans an oplock |
| `ServerWraps.TreeCounterWrapIsReached` | smb/server/dispatch.go:221-227 | a reachable state, 2^32 TREE_CONNECTs of one session, in which the next one orphans an oplock |
| `ServerRuns.HolderIsAdmitted` | smb/server/dispatch.go:408-456 | inside a range its open holds, a read is admitted in every reachable state if and only if its length is within the limit and its offset below 2^63; so a write, if the range is exclusive and the share writable |
| `ServerRuns.TreesAreAuthenticated` | smb/server/dispatch.go:183-227 | a session with a tree is authenticated |
| `ServerHistory.AuthenticatedIffAccepted` | smb/server/dispatch.go:153-196 | over every run a session is authenticated if and only if an earlier step accepted it: the logon that gave out its id, or a later leg |
| `ServerHistory.TreesWereAccepted` | smb/server/dispatch.go:183-227 | behind every tree is a step that accepted its session |
| `ServerRuns.ReadOnlySharesStayUntouched` | smb/server/dispatch.go:288-387 | no open on a read-only share is marked for deletion, nothing but reads reaches its backend, and the refusal in CLOSE is never met |
| `ServerRuns.CreateOpensIff` | smb/server/dispatch.go:288-310 | a CREATE makes an open, of its path, if and only if the backend lets it and the share is writable or nothing is to be created, replaced, truncated or deleted |
| `ServerRuns.DisconnectTakesAll` | smb/server/dispatch.go:198-275 | TREE_DISCONNECT, LOGOFF and the end of a connection leave no tree, session or open of what they take down |
| `ServerHistory.CloseDeletesIffDoomed` | smb/server/dispatch.go:357-387 | over every run a CLOSE goes on to delete its file if and only if the last word since the CREATE, that one included, was to |
| `ServerHistory.RemovesIff` | smb/server/dispatch.go:378-387 | a file is removed at the backend by exactly the step behind such a CLOSE |
| `ServerHistory.RemovedWasDoomed` | smb/server/dispatch.go:378-387 | so whatever a step of a run removes was opened, last ordered to be deleted, and closed by that connection before |
| `ServerRuns.LockRequestOverRun` | smb/server/lock_ioctl.go:109-152 | what any LOCK request, unlocks included, leaves its file holding, whatever other connections did between its steps |
| `ServerRuns.FailedLockLeavesNothing` | smb/server/lock_ioctl.go:119-149 | a failed request of lock elements leaves nothing behind under any interleaving |
| `ServerAccess.ClearLostIff` | smb/server/lock_ioctl.go:74-83 | an access in flight loses its clear way by exactly those steps that grant another open a lock across it |
| `ServerAccess.ForeignLockCameLater` | smb/server/dispatch.go:408-457 | over every run, any lock of another open that an access meets at the backend was granted after its check |
| `ServerAccess.AccessIsClearIff` | smb/server/dispatch.go:408-457 | an access meets no such lock if and only if every lock granted across it since its check has been released again; the call it then makes is for the range checked |
| `ServerAccess.WriteLandsInsideLock` | smb/server/dispatch.go:451-457 | a reachable state in which a checked WRITE is about to write inside another connection's exclusive lock |
| `ServerShield.OwnRangeStays` | smb/server/lock_ioctl.go:85-107 | no step of another connection takes a range away from an open |
| `ServerShield.CoveredIsProtected` | smb/server/dispatch.go:408-457 | an access whose bytes its open has locked, exclusively for a WRITE, meets no other open's lock at the backend however the run goes on |
| `ServerShield.ProtectedIffCovered` | smb/server/dispatch.go:408-457 | in every reachable state exactly these accesses of at least a byte are protected, of READs those with no byte under other opens' locks alone; otherwise a run is given in which a new client connects, opens the file and locks an unlocked byte in between |
| `ServerProgress.StuckIffBlocked` | smb/server/oplocks.go:54-86 | in every reachable state a connection inside a handler has a step unless it waits to notify a live connection whose channel of 64 is full, and then it has none |
| `ServerProgress.DeadlockIsForever` | smb/server/oplocks.go:82-85 | connections that wait for one another's full channels stay so, whatever the rest does |
| `ServerProgress.SelfDeadlockIsReached` | smb/server/dispatch.go:319-332 | 130 CREATEs of one file that ask for an oplock leave a connection waiting for itself |
| `Headers.EncodeAt` | smb/wire/header.go:40-58 | field by field, the header overwrites its 64 bytes and nothing else |
| `Headers.ParseEncode` | smb/wire/header.go:40-84 | what is parsed is what was written, except the id that does not travel |
| `Headers.FlagChanges` | smb/server/server.go:412-416 | setting or clearing one flag leaves the others |
| `Headers.RewriteNext` | smb/server/server.go:384-385 | patching bytes 20 to 24 changes the link of a written header and nothing else |
| `Headers.RewriteSignature` | smb/signing/signing.go:36-46 | writing bytes 48 to 64 changes the signature of a written header and nothing else |
| `Bytes.LEAt` | smb/wire/header.go:40-58 | byte i of a field is its value divided by 256^i, modulo 256 |
| `Compound.CheckSignature` | smb/server/server.go:327-350 | the check in the buffer refuses what the function says and leaves the right signature there |
| `Compound.PatchFileId` | smb/server/server.go:352-357 | a related request that is not the first gets the chain's file id at its command's offset if there is room |
| `Compound.PadAndLink` | smb/server/server.go:380-386 | pads to eight and patches the previous response's link |
| `Compound.SignReply` | smb/server/server.go:424-433 | sets the flag and signs the response in place |
| `Compound.WriteReply` | smb/server/server.go:412-434 | header into its slot in front of the body, signed where the session signs |
| `Compound.Connection.constructor` | smb/server/server.go:228-239 | a connection starts with one credit and no output |
| `Compound.Connection.Receive` | smb/server/server.go:332-357 | charges with saturation, checks the signature, patches the file id |
| `Compound.Connection.Answer` | smb/server/server.go:380-434 | one response: link, execute or skip, grant, write, sign |
| `Compound.Connection.HandleMessage` | smb/server/server.go:312-443 | ends on any bytes, and does to output, balance, state and buffer what the steps say |
| `CompoundEvents.RunsIffAuthentic` | smb/server/server.go:326-350 | on any bytes, a request gets to a handler if and only if none failed before it and, as it came, its session has no signer, or it is marked signed, holds a header and bytes 48 to 64 are the CMAC of it, or it is unmarked and need not be signed; else its status is ACCESS_DENIED |
| `CompoundEvents.HandlersAreAsked` | smb/server/server.go:352-434 | on any bytes, a handler is shown the request as it came but for the chain's file id, the command decides which is asked, and its state, status, body and ids are what is kept and sent, in a response marked as one |
| `CompoundNotify.PanicsIffTreeless` | smb/server/changenotify.go:56-64 | on any bytes, a request ends the connection if and only if it is a CHANGE_NOTIFY of at least 96 bytes whose handler is entered without a session or tree |
| `CompoundNotify.StartsWithHeaderIff` | smb/server/server.go:359-388 | on any bytes, what is sent starts with a header if and only if the first request is not a CHANGE_NOTIFY that its handler refuses, and else has the header behind the eight bytes of the error |
| `CompoundNotify.InterimAsWritten` | smb/server/async.go:58-65 | the interim response in numbers: status 0x103, flags 3, no credit, the asynchronous id at byte 32 |
| `CompoundRuns.FailureStopsHandlers` | smb/server/server.go:391-402 | on any bytes, after a failed request no handler runs, nothing they keep changes, and later statuses are that one or ACCESS_DENIED |
| `CompoundRuns.RelatedRequestsInherit` | smb/server/server.go:352-357 | on any bytes, a related request with room reaches its handler carrying, at byte 72, 80 or 88 by its command, the file id its predecessor handed on |
| `CompoundRuns.StepCredits` | smb/server/server.go:332-410 | what one request does to the balance: the charge as far as it goes, then the difference to the maximum modulo 2^32, told up to 65535 |
| `CompoundRuns.CreditsConserved` | smb/server/server.go:332-410 | over every sequence of messages 1 plus grants minus charges is the balance, never above the maximum and at it after an answered request |
| `CompoundRuns.CreditsConservedIff` | smb/server/server.go:404-410 | this holds of every run if and only if the maximum is at least 1 and fits the 16-bit field |
| `CompoundChain.ChainGrows` | smb/server/server.go:380-389 | padding and patching turn the chain so far into the front of the chain with one more response |
| `CompoundChain.FollowFinds` | smb/wire/header.go:60-84 | following the links of a chain finds every response, in order, at its place |
| `CompoundChain.FinishedIsSealed` | smb/server/server.go:424-433 | a response is signed, and verifies, where its session signs, with encryption for NEGOTIATE and SESSION_SETUP only; any other goes out as it is |
| `CompoundChain.StepAnswers` | smb/server/server.go:320-442 | a step on a well-formed chain answers the request at hand, extends the chain and leaves the later requests as they came |
| `CompoundChain.ResponsesMirrorRequests` | smb/server/server.go:312-443 | following NextCommand through the output visits one response per request, in order, 8-aligned, with its command, message id and status, ending in 0; the output is exactly those responses with their bodies |
| `CompoundChain.LastResponseVerifies` | smb/server/server.go:424-433 | the output ends in the last response, and its signature verifies if its session signs |
| `CompoundRoom.ServesIffSheltered` | smb/server/server.go:352-357 | under all handlers that change the file id only in CREATE, to one made of its session and tree, the requests are answered as written if and only if every related one has room for its file id or no id it may be given changes the next header |
| `CompoundRoom.RoomyIsSheltered` | smb/server/server.go:352-357 | room everywhere is enough |
| `CompoundRoom.RoomOrBlank` | smb/server/server.go:352-357 | without room the next request must read zero where the id goes, in its command or its message id |
| `CompoundRoom.ShortCloseGoesAstray` | smb/server/server.go:352-357 | under any such handlers, behind an ECHO and a related CLOSE of 64 bytes a third request, an ECHO, is answered as a NEGOTIATE |
| `DirEntries.EncodeName` | smb/wire/fscc.go:17-24 | each rune as its low sixteen bits, little-endian |
| `DirEntries.NameRoundTripIff` | smb/wire/fscc.go:7-24 | a name comes back if and only if it stays within the Basic Multilingual Plane |
| `DirEntries.AppendEntry` | smb/wire/fscc.go:48-100 | one entry in either layout after what was there; in numbers, the name at byte 104 behind forty zeros or at byte 64, and zeros up to a multiple of eight |
| `DirEntries.PageSnoc` | smb/wire/fscc.go:71-73 | linking the last entry and appending one gives the page with one more |
| `DirEntries.WalkFindsPage` | smb/wire/fscc.go:48-100 | walking a page by its links decodes exactly its entries at their places, the last link being 0 |
| `DirEntries.StartsAligned` | smb/wire/fscc.go:48-100 | every entry starts on a multiple of eight |
| `Paging.SetNextEntryOffset` | smb/wire/fscc.go:71-73 | the link reads the distance to the next entry, and every other byte is as it was |
| `Paging.DirHandle.constructor` | smb/server/dispatch.go:478-486 | a fresh handle has no listing and stands at its front |
| `Paging.DirHandle.FillPage` | smb/server/dispatch.go:523-547 | the loop advances the cursor over exactly the entries that fit and leaves their linked page |
| `Paging.DirHandle.QueryDirectory` | smb/server/dispatch.go:465-565 | cursor, cache and response after a query, as a function of those before |
| `Paging.ReplyWithinLimit` | smb/server/dispatch.go:526-530 | with two or more entries the last name ends within the client's limit and the page exceeds it by at most 7 bytes |
| `Paging.PageIsFull` | smb/server/dispatch.go:526-530 | a page ends before the listing only if the next entry, at 104 or 64 bytes and two for each byte of its name, goes past the limit |
| `Paging.SharedScanIff` | smb/server/dispatch.go:488-493 | two patterns share a scan if and only if they are equal or both ask for everything |
| `Paging.PagingRefinesListing` | smb/server/dispatch.go:478-565 | the answers to a scan are the listing made when it began, in order, once each, at least one entry a page, and NO_MORE_FILES exactly when all is delivered |
| `Paging.OverUntilRestart` | smb/server/dispatch.go:484-490 | after that only a restart brings entries, whatever the pattern |
| `Paging.OffsetRightIff` | smb/server/dispatch.go:557-560 | the offset written is the 72 bytes from the response's header if and only if the response starts at a multiple of 65536 |
| `Paging.LocatedIffFirst` | smb/server/dispatch.go:557-560 | in a message short of 65528 bytes a client that reads offset and length from the response finds the buffer if and only if the response is the first, and else is sent past the end |
| `CompoundPaging.QueryAfterCreateIsMisplaced` | smb/server/dispatch.go:559 | behind the response to a CREATE the offset field reads 232, and the client finds nothing |
| `ReadReply.HandleRead` | smb/server/dispatch.go:421-433 | reserving, filling, patching and truncating in the output come to appending the response with the bytes read, or the error body, after what was there |
| `Paging.ClientDecodesListing` | smb/server/dispatch.go:518-560 | from responses whose offset is right, a client that locates each buffer in the output and follows the links of page after page decodes the listing |
| `Async.PendingOps.constructor` | smb/server/server.go:234-235 | nothing is pending at first |
| `Async.PendingOp.constructor` | smb/server/async.go:22-26 | a new operation is not cancelled |
| `Async.PendingOp.Cancel` | smb/server/async.go:16-18 | cancelled afterwards, however often |
| `Async.PendingOps.Register` | smb/server/async.go:20-32 | a fresh operation under the next id, in both maps |
| `Async.PendingOps.Unregister` | smb/server/async.go:34-39 | gone from both maps, nothing else |
| `Async.PendingOps.CancelPending` | smb/server/async.go:41-49 | cancels the operation under that id and no other |
| `Async.PendingOps.CancelAll` | smb/server/server.go:460-468 | every pending operation is cancelled and the table dropped |
| `Async.IdsDistinctIff` | smb/server/async.go:21-23 | ids are all different if and only if at most 2^64 were given out |
| `Async.StepKeeps` | smb/server/changenotify.go:56-100 | every step of connection and watchers keeps the protocol's invariant |
| `Async.PendingIsExact` | smb/server/async.go:20-39 | until teardown the table holds exactly the operations not yet finalised |
| `Async.OneFinalAfterInterim` | smb/server/server.go:242-310 | with oplock breaks arriving in the same channel, an operation gets one final, behind its interim on the wire, and CANCELLED only if cancelled or shut down |
| `Async.FinalsAreKept` | smb/server/async.go:51-56 | while no write fails and the connection is up, the final of every watcher that is gone is on the wire or in the channel |
| `Async.CancelReachesWatcher` | smb/server/async.go:41-49 | in every run a CANCEL of a pending id lets that watcher, and touches no other, finish CANCELLED |
| `Async.SilentAfterTeardown` | smb/server/server.go:460-468 | after teardown nothing is written |
| `Async.WatchersLeave` | smb/server/async.go:51-56 | after teardown every watcher can go on to its end |
| `Ccm.CtrTwice` | smb/encryption/ccm.go:44-60 | applying the key stream twice restores the data |
| `Ccm.DecryptAfterEncrypt` | smb/encryption/ccm.go:10-32 | what was encrypted is accepted and comes back, for any block function |
| `Ccm.AcceptedIffEncryption` | smb/encryption/ccm.go:19-32 | a text and tag are accepted if and only if they are the encryption of what they decrypt to |
| `Ccm.CounterBlocksDistinct` | smb/encryption/ccm.go:34-60 | counter blocks of a nonce differ within the counter's width |
| `Ccm.CounterBlockIsNoFirstBlock` | smb/encryption/ccm.go:34-76 | no counter block is a first MAC block |
| `Ccm.MacInputPrefixFree` | smb/encryption/ccm.go:62-122 | the MAC input is an injective, prefix-free encoding of nonce, additional data and message |
| `Ccm.BlocksAsWritten` | smb/encryption/ccm.go:34-122 | the blocks of an eleven-byte nonce and a 32-byte header in numbers |
| `Ccm.EncryptAsWritten` | smb/encryption/ccm.go:10-60 | byte by byte, the text is the data with the key stream from counter 1 on added, the tag the MAC with that of counter 0 |
| `MacBinding.ChainStates` | smb/encryption/ccm.go:90-102 | the chain is the sequence X_{i+1} = E(X_i + B_i) of section 2.2 |
| `MacBinding.ChainDiffers` | smb/encryption/ccm.go:90-102 | under an injective cipher, from any start, blocks that differ in one place chain to different results |
| `MacBinding.TagDiffers` | smb/encryption/ccm.go:62-102 | so one changed block of what is authenticated changes the tag |
| `MacBinding.TamperedFrameRefused` | smb/encryption/encryption.go:53-73 | a frame that opens is refused after any change within its protocol id, its tag, one block of the header behind the nonce, or sixteen bytes of its text |
| `CcmInPlace.PutBE` | smb/encryption/ccm.go:130-135 | big-endian, in place |
| `CcmInPlace.CtrEncryptBlock` | smb/encryption/ccm.go:34-42 | the key-stream block of a counter |
| `CcmInPlace.CtrXorInPlace` | smb/encryption/ccm.go:44-60 | the in-place loop is RFC 3610's key stream on the data and touches nothing before it |
| `CcmInPlace.MacBlocks` | smb/encryption/ccm.go:90-102 | folds zero-padded blocks into the state |
| `CcmInPlace.EncodeAadLengthInto` | smb/encryption/ccm.go:104-122 | the length prefix of section 2.2 and the additional data |
| `CcmInPlace.CbcMac` | smb/encryption/ccm.go:62-88 | the MAC of section 2.2 |
| `CcmInPlace.CcmEncryptInPlace` | smb/encryption/ccm.go:10-17 | text and tag are RFC 3610's |
| `CcmInPlace.CcmDecryptInPlace` | smb/encryption/ccm.go:19-32 | accepts what RFC 3610 accepts and leaves the decrypted data |
| `Transform.SealMessage` | smb/encryption/encryption.go:31-51 | the frame, filled by offsets |
| `Transform.OpenMessage` | smb/encryption/encryption.go:53-73 | checks in order, then decrypts in place |
| `Transform.OpenSealIff` | smb/encryption/encryption.go:31-73 | a sealed message opens to itself if and only if it is shorter than 2^32 bytes |
| `Transform.OpenedIffAuthentic` | smb/encryption/encryption.go:53-73 | a frame opens to a message if and only if it is byte for byte that message's frame under its own nonce and header |
| `Transform.SealedAsWritten` | smb/encryption/encryption.go:31-51 | the frame in numbers |
| `Cmac.CmacShift` | smb/signing/signing.go:101-112 | the shift loop doubles |
| `Cmac.DoubleMultipliesByX` | smb/signing/signing.go:101-112 | doubling is multiplication by x in GF(2^128), coefficient by coefficient |
| `Cmac.CoefficientsDetermine` | smb/signing/signing.go:101-112 | a block is determined by its 128 coefficients |
| `Cmac.Signer.constructor` | smb/signing/signing.go:20-34 | the subkeys of RFC 4493 section 2.3 |
| `Cmac.Signer.ComputeMac` | smb/signing/signing.go:59-88 | the MAC of RFC 4493 section 2.4, for all lengths |
| `Cmac.Signer.Sign` | smb/signing/signing.go:36-46 | bytes 48 to 64 become the MAC of the message with that field zeroed |
| `Cmac.Signer.Verify` | smb/signing/signing.go:48-57 | true if and only if the field holds that MAC, and then nothing changed |
| `Cmac.SigningIgnoresOldSignature` | smb/signing/signing.go:36-46 | what the field held before does not matter |
| `Cmac.SignedVerifies` | smb/signing/signing.go:36-57 | a signed message verifies |
| `MacBinding.CmacIsChain` | smb/signing/signing.go:59-88 | the MAC is the chain over the blocks, a full last one with x.L added, a shorter one padded with 0x80 and x^2.L added |
| `MacBinding.TamperedMessageFails` | smb/signing/signing.go:48-57 | a message that verifies fails after any change within one block of sixteen bytes |
| `Negotiate.SizeOf` | smb/wire/negotiate.go:107-119 | the summed size is the size of the body, exactly |
| `Negotiate.Append` | smb/wire/negotiate.go:107-158 | the offset-driven writer fills its buffer with the declared layout, to the last byte |
| `Negotiate.FixedAsWritten` | smb/wire/negotiate.go:125-145 | the fixed part in numbers, the security buffer behind it |
| `Negotiate.ParseContexts` | smb/wire/negotiate.go:74-91 | the reader loop, with its truncation errors |
| `Negotiate.ContextsRoundTripIff` | smb/wire/negotiate.go:74-158 | reading at the offset and count written gives the contexts back if and only if number and lengths fit their fields |
| `Negotiate.ContextsAligned` | smb/wire/negotiate.go:145-155 | every context stands whole on a multiple of eight |

## Left out

- HandleLock: an element with none of the three bits ends the request without rollback, and unlock elements are never undone, as in the code; `Locks.RequestOutcome`, `LockRequests.AllOrNothingIff` and `LockRequests.ConflictAfterUnlockLoses` say what follows.
- AllOrNothingIff: for requests that take no lock after their first unlock. Of the others, those that start with an unlock never are (`LockRequests.UnlockFirstNeverAllOrNothing`); those that start with locks lose a range where a later lock can be refused beside these (`LockRequests.ConflictAfterUnlockLoses`), and when it can is not characterised. What any request leaves on a given table is `Locks.RequestOutcome`.
- ProtectedIffCovered: speaks of accesses of at least one byte, as long as a session id is left, and not of a READ with bytes under other opens' shared locks alone; that one is safe as long as their owners keep them, and protected if covered (`ServerShield.CoveredIsProtected`).
- StuckIffBlocked: says when a handler cannot go on, not that the scheduler ever lets it; a connection may empty its channel between any two requests here, in the code only between two messages, so the runs of the code are among those of the model; the run of `ServerProgress.SelfDeadlockIsReached` empties none.
- ResponsesMirrorRequests: supposes an output shorter than 2^32 bytes, the range of the link field, and no CHANGE_NOTIFY in the chain, whose interim header stands outside the links. It also supposes that requests do not overlap: the loop follows a NextCommand of 1 to 63 into the header it is reading, where what is written into one request shows in the next.
- ServesIffSheltered: is about the same chains, in which every NextCommand but the last is at least 64.
- LastResponseVerifies: speaks of the last response only; earlier ones are signed before their link and padding are written.
- CreditsConserved: the credit field of asynchronous final responses is not part of the equation, as they are copied from the request.
- HandleMessage: handlers are parameters that append a body and return a new state; that the two which reserve, patch and truncate do just that is `ReadReply.HandleRead` and `Paging.DirHandle.QueryDirectory`, and all others only append. The preauthentication hash is not modelled: the server updates it and never reads it otherwise.
- RunKeepsInv: past the width of a counter a run goes on only while no identifier is given out that something hangs on, which is exact for entries of the tables by `ServerRuns.CreateKeepsNamesIff` and `ServerRuns.ConnectTreeKeepsNamesIff`; session ids are taken to stay below 2^64.
- TamperedFrameRefused: says nothing of a changed nonce, nor of changes in several blocks, which some ciphers let through; that the cipher is injective is the only thing supposed of it.
- CbcMac: additional data is limited to 254 bytes, the room of the fixed buffer it is copied into.
- ClientDecodesListing: supposes responses that start at a multiple of 65536, where alone the offset is right, names in the Basic Multilingual Plane, entries shorter than 2^32 bytes and limits up to 2^32 - 8.
- QueryDirectory: enumeration is free of errors, so listings cut short by one are not modelled; the listing is a parameter.
- The maps of sessions, trees and opens are flattened into maps keyed by connection, session, tree and file id; handlers on one connection run one at a time.
- Lock and oplock tables are keyed by the path a client sent; aliases and renames are not followed.
- Oplocks: ownership of the table is modelled, not the exclusivity of caching; a break notification is a message counted in its holder's channel, and the watchers' finals that share the channel come at any time there is room.
- OPEN_IF on a read-only share reaches the backend, so opening is not claimed to leave the share alone.
- AES, HMAC, SHA-512, MD4, RC4, key derivation and random nonces are uninterpreted or parameters.
- Kerberos, SPNEGO, the local file-system backend, framing over TCP, deadlines and logging are input and output or foreign code.
- RPC builders, QUERY_INFO encoders, the fixed-layout request parsers and time conversions would only add easy members.
- Change detection between directory snapshots is a nondeterministic step of the watcher.
