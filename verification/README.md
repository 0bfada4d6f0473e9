# TextCascade server: a verified model

TextCascade keeps the clipboard of a user in step across that user's machines. For each user one hub takes clips in,
gives each a version, sends it to every connection through a bounded queue, and after a restart elects the newest
snapshot its clients bring back. This project models that server in Dafny and proves what it promises: over whole
runs, for all inputs, and exactly, where the code leaves something out, when it does so.

`dafny verify dfyconfig.toml` checks everything.

## What is modelled

* **Hub and connections.** `Connections` (one connection with its bounded queue), `HubSpec` (each operation of a hub
  as a function on values, with a ledger of what happened), `UserHub` (the hub as a class, proved to do what `HubSpec`
  says), `HubInvariants`, `HubRuns` and `HubTheorems` (what every step and every run keep), `HubLedger` (what becomes
  of every clip over a run), `HubClosing` and `HubOverflow` (which queued clips are served at the close, and when the
  versions run out).
* **Server.** `SyncServer` (registry, pending hellos, scans, rebuilding), `ScanSpec` (what a scan does and keeps),
  `Heartbeat` (timed runs of one connection), `Generations` (one user across hubs and restarts).
* **Store.** `StateStore` (the store as a class), `StoreInterleaving` (savers and flushers interleaved at each lock
  and each access to the dirty bit), `Restarts` (the class against one user's share of it, as `Generations` has it).
* **Bounded structures.** `SeenIdRing`, `TokenBucket` and `LoginLimiter`, each proved equal to a function of its whole
  history; `SnapshotElection`.
* **JSON.** `Utf8`, `JsonScanner` (parsing functions and the scanner class that refines them), `JsonGrammar` (the
  grammar as syntax trees; the scanner accepts exactly its texts), `JsonWriter` (the escaper), `CompactObject` and
  `ServerFrames` (frames to clients), `ClientMessages` (frames from clients), `MemberSets` (members in any order),
  `Strconv`.
* **Users and tokens.** `UsersFiles`, `UsersPrinting`, `UsersRoundTrip` (users.json in and out), `Cli` (the commands
  over the bytes on disk), `Tokens`.

Classes stand where the source changes fields in place, and each of their methods states the whole new state through a
function; the lemmas then speak about those functions.

## Assumptions

* `ApplyClip`, `CloseRecoveryWindow`, and fetching a hub and then adding a connection to it are atomic steps. The
  source does not quite ensure this: the close drains clips after unlocking (internal/hub/hub.go:332-339) and a clip
  reads the version before it locks to write it (internal/hub/hub.go:437-440). Only the store is modelled at the
  granularity of its locks.
* A hub is recycled only when its job queue is empty, and after that nothing reaches the old hub.
* A connection that is closed can stay listed, because the paths for a full queue do not unlist it
  (internal/hub/hub.go:413-415, 473-475). No theorem says otherwise.
* Go strings are sequences of bytes, integers have their ranges written out, float64 in the bucket is `real`, times
  are integers in nanoseconds, and time does not run backwards for the login limiter.
* Formatting and parsing of times, HMAC-SHA256, Base64, the password hash, and `json.Marshal` of a string are
  parameters. Of the last only this is assumed: it writes some JSON literal of the string, with invalid bytes
  replaced by U+FFFD, as its documentation says; `UsersPrinting.DocumentedEscaperQuotes` shows that this can be met.
* A file write succeeds or fails as a whole. User names in the state file are valid UTF-8.

## What the code does not do

* **Escaper.** `utf16.EncodeRune` never gives -1, so the branch for a single unit (internal/protocol/serialize.go:172)
  is dead and every character of the basic plane from U+0080 on, apart from U+2028 and U+2029, is written as two
  U+FFFD. `JsonWriter.RoundTripIff` says exactly which strings survive; with the branch its comment promises all valid
  UTF-8 does.
* **Ring.** An id used again can be evicted early by its older slot. The empty id is never evicted, but no clip that
  passed validation has it (internal/protocol/protocol.go:263), so `HubLedger.RingStaysWithinCapacity` holds.
* **User names.** The commands accept names that are not valid UTF-8; the stored name is then another one, and if that
  one is taken, the saved file cannot be loaded again. `Cli.StaysReadable` gives the exact condition on the file and
  the command beforehand, and `Cli.TwoAddsBreakTheFile` two commands that do it.
* **Last version.** When the versions run out while queued clips are processed, the window ends up closed and nobody is
  welcomed; `HubClosing` gives the exact condition, and shows that of the queued clips at most the burst is served.
* **Lost flush.** After a restart that lost unflushed versions, versions can be given out again
  (`Generations.AVersionIsGivenTwice`); `Generations.LostVersionsComeBack` gives the exact condition.

## Model

| member | source | states |
|---|---|---|
| `SeenIdRing.Ring.constructor` | internal/core/ring.go:15-24 | An empty ring of the given capacity; its history is empty |
| `SeenIdRing.Ring.TryGet` | internal/core/ring.go:41-46 | Answers exactly what the whole history of Remember calls determines |
| `SeenIdRing.Ring.IsUnchangedDuplicate` | internal/core/ring.go:56-67 | True exactly when the history still holds the id with a text of the same payload, hash and flag; then that text is returned and is never absent |
| `SeenIdRing.Ring.Remember` | internal/core/ring.go:49-77 | One more call in the history; map, slots and index keep matching it |
| `SeenIdRing.Ring.TryDuplicate` | internal/core/ring.go:30-38 | True exactly when the history holds the id, and only otherwise remembers it |
| `SeenIdRing.HoldsStep` | internal/core/ring.go:69-77 | How one call changes the presence of every id: the called id is in, the id called a capacity ago is out, all others stay |
| `SeenIdRing.FirstUseSurvives` | internal/core/ring.go:69-77 | An id used for the first time is still held, with its value, after fewer than capacity further calls of other ids |
| `SeenIdRing.ReuseCanBeEvictedEarly` | internal/core/ring.go:69-77 | That fails for a reused id: a capacity of two and one further call are enough to lose it |
| `SeenIdRing.AtMostCapacity` | internal/core/ring.go:69-77 | Never more non-empty ids than the capacity |
| `SeenIdRing.EmptyIdStays` | internal/core/ring.go:71-73 | The ring alone never evicts the empty id; no valid clip has it, see HubLedger.RingStaysWithinCapacity |
| `TokenBucket.Bucket.constructor` | internal/core/bucket.go:19-33 | A full bucket with no grants |
| `TokenBucket.Bucket.TryAcquire` | internal/core/bucket.go:45-61 | Grants exactly when the call is not before the last refill and one more grant keeps every stretch ending now within burst plus rate times elapsed |
| `TokenBucket.LevelRefills` | internal/core/bucket.go:53-54 | The refilled level is still the least balance over all past instants |
| `TokenBucket.LevelDecides` | internal/core/bucket.go:55-60 | A level of at least one token is the same as the policy allowing one more grant |
| `TokenBucket.PacedStep` | internal/core/bucket.go:45-61 | A grant the policy allows keeps all grants paced |
| `LoginLimiter.Limiter.constructor` | internal/core/limiter.go:21-23 | Nothing recorded |
| `LoginLimiter.Limiter.TryConsumeLoginLimit` | internal/core/limiter.go:29-42 | With lazy cleanup, the answer and the new record are those of the rule over all accepted attempts: address first, then name, the address staying charged when the name is refused |
| `LoginLimiter.Limiter.ResetUserWindow` | internal/core/limiter.go:44-48 | Forgets exactly the attempts of that name |
| `LoginLimiter.Limiter.TryConsume` | internal/core/limiter.go:87-111 | One dimension: fewer than the limit in the last minute, and a new key only below the key cap |
| `LoginLimiter.Limiter.RemoveExpired` | internal/core/limiter.go:113-126 | Drops exactly what is a minute old and every key left empty |
| `LoginLimiter.ChargeKeepsLimit` | internal/core/limiter.go:87-111 | Charging one key keeps every key within its limit over every minute, past or future |
| `LoginLimiter.ChargeKeepsKeyCap` | internal/core/limiter.go:94-106 | The number of live keys never passes the cap |
| `LoginLimiter.RunBounded` | internal/core/limiter.go:29-48 | Over every run of logins and resets in nondecreasing time no minute holds more accepted attempts of an address or a name than allowed, and the keys stay below the cap |
| `LoginLimiter.WindowMoves` | internal/core/limiter.go:113-126 | As time passes, the last minute of a key is the old one less what expired |
| `SnapshotElection.BeforeIsStrictWeakOrder` | internal/core/logic.go:59-67 | The comparator is a strict weak order whose ties are exactly the equal keys |
| `SnapshotElection.SelectSnapshotWinner` | internal/core/logic.go:41-69 | Nothing exactly when no hello has a positive version and a snapshot; otherwise the earliest arrival that no other beats |
| `SnapshotElection.SortedHead` | internal/core/logic.go:59-68 | The head of a stable sort is the earliest of the best |
| `SnapshotElection.ElectedIsUnique` | internal/core/logic.go:41-69 | At most one hello is elected |
| `SnapshotElection.ReorderingKeepsKey` | internal/core/logic.go:41-69 | Permuting the arrivals can change the winner only among equal keys |
| `SnapshotElection.NextVersion` | internal/core/logic.go:22-27 | One more, or nothing (the panic) exactly at the last version |
| `StateStore.Load` | internal/state/store.go:138-164 | A state file loads exactly if it is missing or has non-blank, unrepeated names with positive versions, and loads to those versions |
| `StateStore.Reload` | internal/state/store.go:34-51 | Starting again from a flushed file gives back every version exactly when no name is blank |
| `StateStore.Store.constructor` | internal/state/store.go:34-51 | A clean store holding what was loaded |
| `StateStore.Store.GetVersion` | internal/state/store.go:53-57 | The version held, or zero |
| `StateStore.Store.SaveVersion` | internal/state/store.go:60-67 | The maximum of the held and the saved version; the store is dirty afterwards |
| `StateStore.Store.Flush` | internal/state/store.go:70-94 | Writes exactly when dirty; a good write lists every version in name order and leaves the store clean, a failed one changes nothing |
| `StateStore.Store.Stop` | internal/state/store.go:111-126 | The first call flushes once; afterwards everything is on disk if the write succeeded |
| `StateStore.SortedEntries` | internal/state/store.go:75-86 | Every version once, in name order, whatever the map order |
| `StateStore.MergedIsMax` | internal/state/store.go:60-67 | Saving takes the maximum for one user and touches no other |
| `StoreInterleaving.StepKeepsOrdered` | internal/state/store.go:60-94 | Every lock-level step keeps disk below memory, and neither ever decreases |
| `StoreInterleaving.StepKeepsInv` | internal/state/store.go:60-94 | Every lock-level step keeps each unsaved version covered by the dirty bit, a saver yet to set it, or a flush in flight |
| `StoreInterleaving.NoUpdateIsLost` | internal/state/store.go:60-126 | Over every interleaving of savers and flushers no version is lost; when all are idle and the bit is clear, disk equals memory |
| `StoreInterleaving.FlushAlone` | internal/state/store.go:70-94 | A flush alone, step by step, does what Store.Flush promises |
| `Utf8.SanitizedIdentity` | internal/protocol/jsonscan.go:122-124 | Replacing invalid bytes changes exactly the strings that are not valid UTF-8 |
| `JsonScanner.Decode` | internal/protocol/jsonscan.go:121-139 | The scanner object, started on a frame, answers what the parsing functions say |
| `JsonScanner.Get` | internal/protocol/jsonscan.go:86-96 | The first member of that name, if any |
| `JsonScanner.Scanner.constructor` | internal/protocol/jsonscan.go:141-145 | A scanner at the start of its text |
| `JsonScanner.Scanner.SkipWhitespace` | internal/protocol/jsonscan.go:151-160 | Moves to the next byte that is not whitespace |
| `JsonScanner.Scanner.ScanValue` | internal/protocol/jsonscan.go:162-197 | Refines the parsing function at the current position |
| `JsonScanner.Scanner.ExpectLiteral` | internal/protocol/jsonscan.go:199-207 | Refines the parsing function at the current position |
| `JsonScanner.Scanner.ScanObject` | internal/protocol/jsonscan.go:209-254 | Refines the parsing function: members in document order, repeats kept |
| `JsonScanner.Scanner.ScanArray` | internal/protocol/jsonscan.go:256-289 | Refines the parsing function: items in order |
| `JsonScanner.Scanner.ScanNumber` | internal/protocol/jsonscan.go:291-323 | Refines the parsing function: integer literals only |
| `JsonScanner.Scanner.ScanString` | internal/protocol/jsonscan.go:325-384 | Refines the parsing function: characters and escapes up to the closing quote |
| `JsonScanner.Scanner.ScanUnicodeEscape` | internal/protocol/jsonscan.go:386-409 | Refines the parsing function: one unit, or a proper surrogate pair |
| `JsonScanner.Scanner.ScanHex4` | internal/protocol/jsonscan.go:411-437 | Refines the parsing function: exactly four hex digits |
| `JsonGrammar.DecodeIsTheGrammar` | internal/protocol/jsonscan.go:121-437 | Decode accepts exactly the texts of the grammar of RFC 8259 (sections 2 to 7) with integer literals, paired surrogate escapes and bounded depth, and answers the tree a text denotes |
| `JsonGrammar.TextAccepted` | internal/protocol/jsonscan.go:121-437 | Every text of the grammar within the depth is accepted with its tree |
| `JsonGrammar.TextSound` | internal/protocol/jsonscan.go:121-437 | Every accepted text is one of the grammar |
| `JsonGrammar.TextIsUtf8` | internal/protocol/jsonscan.go:122-124 | Every text of the grammar is valid UTF-8, so the check on entry refuses none of them |
| `JsonGrammar.DecodedStringsAreUtf8` | internal/protocol/jsonscan.go:325-384 | Every string and key of a decoded tree is valid UTF-8 |
| `JsonWriter.Builder.WriteHexUnit` | internal/protocol/serialize.go:209-215 | Writes the six bytes of a unit escape |
| `JsonWriter.Builder.WriteAsciiUnit` | internal/protocol/serialize.go:182-207 | Named escape, unit escape for control and sensitive characters, or the character |
| `JsonWriter.Builder.WriteRune` | internal/protocol/serialize.go:162-178 | One rune as the code stands; its branch for a missing low unit is dead |
| `JsonWriter.Builder.WriteJsonString` | internal/protocol/serialize.go:160-180 | Appends the literal of the string, rune by rune |
| `JsonWriter.WrittenIsReadBack` | internal/protocol/serialize.go:160-215 | Wherever the literal stands, the scanner reads it back as Reread says |
| `JsonWriter.RoundTripIff` | internal/protocol/serialize.go:160-215 | The code as written gives a string back exactly when it is valid UTF-8 without a character of the basic plane from U+0080 on other than U+2028 and U+2029 |
| `JsonWriter.DocumentedRoundTrip` | internal/protocol/serialize.go:155-159 | With the branch the comment promises, exactly the valid UTF-8 strings come back |
| `JsonWriter.WrittenMangles` | internal/protocol/serialize.go:171-175 | U+00E9 comes back as two replacement characters |
| `JsonWriter.WritesAscii` | internal/protocol/serialize.go:155-215 | Only printable ASCII is written |
| `ServerFrames.MarshalClip` | internal/protocol/serialize.go:34-54 | The bytes of a broadcast, entry by entry |
| `ServerFrames.MarshalClipAck` | internal/protocol/serialize.go:57-67 | The bytes of an acknowledgement, entry by entry |
| `ServerFrames.MarshalLatest` | internal/protocol/serialize.go:127-145 | The bytes of the text inside a welcome |
| `ServerFrames.MarshalWelcome` | internal/protocol/serialize.go:21-31 | The bytes of a welcome, with the text inside exactly if there is one |
| `ServerFrames.WelcomeReadsBack` | internal/protocol/serialize.go:21-31 | A welcome is one JSON object; the text inside is read back with its exact version |
| `ServerFrames.ClipReadsBack` | internal/protocol/serialize.go:34-54 | A broadcast is one JSON object; its version is read back exactly, its strings as the escaper leaves them |
| `ServerFrames.AckReadsBack` | internal/protocol/serialize.go:57-67 | So is an acknowledgement |
| `ServerFrames.AckNamesItsClip` | internal/protocol/serialize.go:57-67 | An acknowledgement carries the id of its clip exactly when the escaper leaves that id alone |
| `Strconv.ParseOfFormat` | internal/users/users.go:212-213 | Parsing undoes formatting on all 64-bit integers |
| `UsersFiles.Validate` | internal/users/users.go:128-152 | True exactly for a positive watermark and unrepeated non-blank names with positive versions below it and Argon2id hashes |
| `UsersFiles.BuildLookup` | internal/users/users.go:155-161 | The table holds exactly the users, each under its name |
| `UsersFiles.HasUniqueProperties` | internal/users/users.go:109-125 | True exactly when every name is known and none repeats |
| `UsersFiles.Load` | internal/users/users.go:42-106 | What the tree of the text means as a users file, if it is a valid one |
| `UsersFiles.HashIsAscii` | internal/users/users.go:128-152 | Whatever the hash pattern accepts is ASCII |
| `UsersPrinting.WriteUser` | internal/users/users.go:221-241 | Appends one user as it is printed |
| `UsersPrinting.MarshalUsersFile` | internal/users/users.go:209-245 | The whole printed file |
| `UsersPrinting.FileCstIsRight` | internal/users/users.go:209-245 | The printed file is a text of the grammar that denotes the watermark and the users in order |
| `UsersPrinting.DocumentedEscaperQuotes` | internal/users/users.go:224-227 | The assumption on the string quoter can be met |
| `UsersRoundTrip.LoadOfPrinted` | internal/users/users.go:35-106 | Loading a printed valid file gives it back with names cleaned of invalid bytes, or refuses it exactly when two names become equal by that |
| `UsersRoundTrip.LoadOfPrintedIdentity` | internal/users/users.go:35-106 | Loading undoes printing exactly when every name is valid UTF-8 |
| `UsersRoundTrip.InvalidNamesCanBreakTheFile` | internal/users/users.go:164-206 | Two names that differ only in invalid bytes pass validation and print to a file Load refuses; Cli.TwoAddsBreakTheFile reaches such a file by commands |
| `UsersRoundTrip.UsersExactly` | internal/users/users.go:74-92 | An entry is a user exactly if it is an object of the four members in some order with a 64-bit version |
| `UsersRoundTrip.FilesExactly` | internal/users/users.go:52-106 | A tree is a users file exactly if it is an object of watermark and list in some order, each entry is its user, and the whole is valid |
| `UsersRoundTrip.LoadedNamesAreUtf8` | internal/users/users.go:35-106 | Names of a loaded file are valid UTF-8 |
| `Tokens.SignToken` | internal/auth/token.go:69-97 | The payload text in its fixed field order and its MAC, joined by a dot; a short secret panics |
| `Tokens.SomePrimitivesBehave` | internal/auth/token.go:86-96 | The assumptions on MAC and Base64 can be met |
| `Tokens.ParseOfPrinted` | internal/auth/token.go:156-188 | Parsing a signed payload gives it back exactly when its fields are non-empty and positive |
| `Tokens.ParsedHasNoRepeats` | internal/auth/token.go:156-188 | An accepted payload repeats no member although the scanner keeps repeats |
| `Tokens.VerifyOfSigned` | internal/auth/token.go:111-151 | A signed token is accepted exactly when it is short enough, positive in every field, unexpired, and its user is enabled with that version |
| `Tokens.AcceptedIsSigned` | internal/auth/token.go:111-151 | Whatever is accepted carries a MAC under the secret and is admitted by clock and table |
| `Tokens.FreshTokenVerifies` | internal/auth/token.go:56-66 | A token just made verifies exactly until it expires, if its text is not too long |
| `Cli.Edited` | internal/cli/cli.go:152-319 | A command refuses or edits; the watermark grows by one exactly when a version is given out |
| `Cli.UsersDirectory.CommandAddUser` | internal/cli/cli.go:152-203 | The bytes left on disk and the exit code: refused for an existing name or an exhausted watermark, a panic for an unreadable file, otherwise the printed file with the user added under the next version |
| `Cli.UsersDirectory.CommandPasswd` | internal/cli/cli.go:205-232 | The bytes left on disk and the exit code: the printed file with only the hash of that user changed, or nothing changed |
| `Cli.UsersDirectory.CommandSetDisabled` | internal/cli/cli.go:234-260 | The bytes left on disk and the exit code: the printed file with only the flag of that user changed, or nothing changed |
| `Cli.UsersDirectory.CommandDeleteUser` | internal/cli/cli.go:262-284 | The bytes left on disk and the exit code: the printed file without that user, watermark kept, or nothing changed |
| `Cli.UsersDirectory.CommandRevokeTokens` | internal/cli/cli.go:286-319 | The bytes left on disk and the exit code: the printed file with that user at the next version and the watermark one higher, or nothing changed |
| `Cli.UsersDirectory.LoadForWrite` | internal/cli/cli.go:341-354 | A missing file is an empty one |
| `Cli.UsersDirectory.Save` | internal/users/users.go:164-206 | Writes the printed file exactly when it is valid and the write succeeds |
| `Cli.EditChangesOneUser` | internal/cli/cli.go:152-319 | A command changes its user as it says and leaves every other user as it was |
| `Cli.SuccessReads` | internal/cli/cli.go:152-319 | After a success the file reads as the edit under the cleaned name, or not at all when that name is taken |
| `Cli.StaysReadable` | internal/cli/cli.go:152-203 | A command leaves a readable file unreadable exactly when it adds a non-blank new name whose cleaned form is taken, with a proper hash, an unexhausted watermark and a write that succeeds |
| `Cli.AddSucceeds` | internal/cli/cli.go:152-203 | Adding a user succeeds exactly for a non-blank new name, a proper hash, an unexhausted watermark and a write that succeeds |
| `Cli.TwoAddsBreakTheFile` | internal/cli/cli.go:152-203 | From no file at all, two successful additions leave a file nothing can read |
| `Cli.RunsStayReadable` | internal/cli/cli.go:152-319 | With valid UTF-8 names no sequence of commands makes the file unreadable |
| `Cli.RunsKeepVersions` | internal/cli/cli.go:152-319 | Over every sequence of commands the file stays valid, the watermark never falls or overflows, and a user keeps a token version exactly until it is deleted or revoked |
| `Cli.RevocationIsPermanent` | internal/auth/token.go:142-151 | A payload issued from an earlier file is admitted by the table of a later one exactly when its user was neither deleted nor revoked since, is enabled, and the payload is unexpired; adding the name again does not help |
| `Cli.RemovedTokensAreRefused` | internal/auth/token.go:111-151 | Whatever token string verifies against a later file, its user was not deleted or revoked since the file that issued its version |
| `ClientMessages.ParseClientMessage` | internal/protocol/protocol.go:139-181 | The message or the error that the tree of the frame determines |
| `ClientMessages.HasUniqueKnownProperties` | internal/protocol/protocol.go:352-367 | The name of the first unknown or repeated member |
| `ClientMessages.FirstBadIsUniqueKnown` | internal/protocol/protocol.go:352-367 | There is none exactly when all names are known and none repeats |
| `ClientMessages.AcceptedIsValid` | internal/protocol/protocol.go:139-304 | Accepted messages pass validation, and the branches for failed validation and unknown type are never taken |
| `ClientMessages.OrderDoesNotMatter` | internal/protocol/protocol.go:139-304 | Reordering members at both levels never changes which message is accepted |
| `ClientMessages.FrameOrderDoesNotMatter` | internal/protocol/protocol.go:139-181 | The same of frames |
| `ClientMessages.ClipsExactly` | internal/protocol/protocol.go:261-295 | A clip is accepted exactly from an object of its five members in some order, if it is valid |
| `ClientMessages.HellosExactly` | internal/protocol/protocol.go:183-228 | A hello is accepted exactly from an object without unknown or repeated members that gives its id, its name or none that fits, its version and its snapshot or none |
| `ClientMessages.SnapshotsExactly` | internal/protocol/protocol.go:230-259 | A snapshot is read exactly from its four members in some order, within its limits |
| `ClientMessages.PongsExactly` | internal/protocol/protocol.go:297-304 | A pong is accepted exactly from its type and a time in some order |
| `Connections.Connection.constructor` | internal/models/context.go:54-66 | An open connection with an empty queue |
| `Connections.Connection.MarkClosed` | internal/models/context.go:122-130 | Only the first call answers true |
| `Connections.Connection.TryEnqueueSend` | internal/models/context.go:144-151 | Appends to the bounded queue unless it is full |
| `Connections.Connection.Offer` | internal/hub/hub.go:487-491 | Enqueues, or closes once when the queue is full |
| `Connections.Connection.TakeNext` | internal/hosting/connection.go:262-281 | Takes the oldest frame |
| `Connections.Connection.TryTakePongAwaiting` | internal/models/context.go:104-112 | True exactly when a ping was outstanding, and then none is |
| `Connections.Connection.TryStartHelloTimeout` | internal/models/context.go:133-141 | True exactly for the first call on an open connection |
| `Connections.OfferedInOrder` | internal/models/context.go:144-151 | Frames leave in the order they were queued, none is lost, and the queue stays within its capacity |
| `UserHub.Hub.constructor` | internal/hub/hub.go:96-110 | A hub at its initial version with nothing in it |
| `UserHub.Hub.AddConnection` | internal/hub/hub.go:163-179 | Appends, then welcomes if the window is closed, or closes it when due |
| `UserHub.Hub.RemoveConnection` | internal/hub/hub.go:182-197 | Removes the first occurrence and says whether there was one |
| `UserHub.Hub.AcceptSnapshot` | internal/hub/hub.go:272-287 | Keeps the candidate exactly when the window is open and the budget allows it |
| `UserHub.Hub.ClassifyClip` | internal/hub/hub.go:290-301 | Queued, process now, or full |
| `UserHub.Hub.CloseRecoveryWindow` | internal/hub/hub.go:305-341 | Elects, restores, considers the queue and welcomes everyone, as one step; says whether it panicked |
| `UserHub.Hub.RestoreLatest` | internal/hub/hub.go:314-327 | The elected snapshot is restored exactly when its version is not behind |
| `UserHub.Hub.ProcessQueue` | internal/hub/hub.go:329-339 | The queued clips in order, skipping closed connections, until a panic |
| `UserHub.Hub.BroadcastWelcome` | internal/hub/hub.go:349-357 | Every listed connection is offered the current text once |
| `UserHub.Hub.EnsureRecoveryWindowClosed` | internal/hub/hub.go:374-381 | Closes the window exactly when it is open and due |
| `UserHub.Hub.IsRecoveryWindowOpen` | internal/hub/hub.go:360-365 | Open and not yet due |
| `UserHub.Hub.ApplyClip` | internal/hub/hub.go:395-485 | Duplicate, rate limited, overflow or fresh, with the whole new state; the fallback for a remembered id without a text is dead |
| `UserHub.Hub.AssignVersion` | internal/hub/hub.go:437-484 | A fresh clip: version, store, latest text and ring, one frame for every other connection and an acknowledgement for the sender |
| `UserHub.Hub.OfferAll` | internal/hub/hub.go:458-476 | One loop offers the frame to every listed connection but one, exactly once |
| `UserHub.Hub.ProcessJob` | internal/hub/hub.go:255-269 | What each kind of job does |
| `UserHub.Hub.ProcessNext` | internal/hub/hub.go:236-253 | Jobs are taken first in, first out |
| `UserHub.Hub.Receive` | internal/hosting/connection.go:199-212 | What the read loop does with a clip |
| `UserHub.Hub.CancelConnection` | internal/sync/server.go:262-269 | Only the first call closes and unlists |
| `HubInvariants.ApplyKeeps` | internal/hub/hub.go:395-485 | Whatever becomes of a clip, all parts of the invariant stay, and a fresh clip leaves every open listed connection up to date |
| `HubInvariants.DrainKeeps` | internal/hub/hub.go:329-339 | Draining considers the queued clips in order, each once |
| `HubInvariants.RestoreIs` | internal/hub/hub.go:314-327 | Restoring reaches the greater of the stored and the elected version and brings the elected text back exactly when it is not behind |
| `HubInvariants.CloseKeeps` | internal/hub/hub.go:305-347 | Closing adds one version for each drained clip that is accepted; closing again changes nothing |
| `HubRuns.StepKeeps` | internal/hub/hub.go:163-485 | Every step of every kind keeps the invariant |
| `HubRuns.RunKeeps` | internal/hub/hub.go:163-485 | So does every run |
| `HubRuns.RunGrows` | internal/hub/hub.go:163-485 | Over every run issued texts, ring and grants only grow, and after the close every version belongs to a text |
| `HubTheorems.NoVersionIsMissed` | internal/hub/hub.go:437-485 | Over every run, an open listed connection was told exactly the texts issued since it joined, with consecutive versions, and after the welcome a client following its frames knows the current text |
| `HubTheorems.ResendOnlyAcknowledges` | internal/hub/hub.go:395-418 | A clip resent while its ring entry survives changes only the sender's queue, which gets the original version, also with an empty bucket |
| `HubTheorems.ResendAfterRun` | internal/hub/hub.go:395-418 | A first-used id is answered so after any run that accepted fewer than capacity further clips, none under that id |
| `HubTheorems.OnlyFreshClipsShow` | internal/hub/hub.go:395-485 | Exactly a new clip within its pace and the versions is fresh; any other outcome shows nothing to anyone but its sender, who gets at most one frame that announces nothing |
| `HubTheorems.IssuedArePaced` | internal/hub/hub.go:425-437 | Fresh versions keep to burst plus rate times elapsed over every stretch |
| `HubTheorems.RecoveryReachesTheMaximum` | internal/hub/hub.go:305-347 | Until the close nothing is restored or assigned; the close reaches the maximum and considers every queued clip |
| `HubTheorems.ClosedForGood` | internal/hub/hub.go:305-310 | After the close the queue stays empty and closing again is a no-op, at any later time |
| `HubTheorems.ArrivingClips` | internal/hosting/connection.go:199-212 | What one arrival changes: the end of the recovery queue, the end of the job queue, or its own connection, and nothing else; the recovery queue stays within its capacity |
| `HubLedger.EveryClipHasOneFate` | internal/hosting/connection.go:199-212 | Over every run each arriving clip has exactly one of three fates; queued clips are considered at the close, each once and in order, handed ones are taken by the user loop in order and none is lost, and the connection of a refused one is closed for good |
| `HubLedger.RunBalances` | internal/hub/hub.go:230-301 | The same accounts, step by step |
| `HubLedger.RingStaysWithinCapacity` | internal/core/ring.go:69-77 | In every hub reached by clips that passed validation the ring holds at most its capacity, the empty id included |
| `HubClosing.WelcomesExactly` | internal/hub/hub.go:329-341 | The close ends in a welcome exactly when the served clips, a law on the queue, the free places of the connections and the burst, do not outnumber the versions left |
| `HubClosing.DemandIsServed` | internal/hub/hub.go:329-341 | The clips that ask for a version while draining are exactly the served ones |
| `HubClosing.CloseIssuesTheServed` | internal/hub/hub.go:329-341 | A close that welcomes issues exactly the served clips, in order |
| `HubClosing.ServedIsWithinTheBurst` | internal/core/bucket.go:45-61 | At one instant the bucket lets at most its burst through, and no more than are queued |
| `HubClosing.ServedWithRoom` | internal/hub/hub.go:329-339 | Where no queue of a sender can fill, the clips of open connections are served in order, repetitions left out, until the burst is used up |
| `HubClosing.DistinctClipsFillTheBurst` | internal/core/bucket.go:45-61 | Of clips under different ids exactly the first burst of them are served; the rest is rate limited |
| `HubClosing.ClosingWelcomes` | internal/hub/hub.go:329-341 | Everyone is welcomed whenever the queue or the burst fits into the versions left |
| `HubOverflow.LastVersionSkipsTheWelcome` | internal/core/logic.go:22-27 | With no version left one queued clip closes the window without a welcome |
| `Generations.EventKeeps` | internal/sync/server.go:117-124 | Creating, running, recycling, rebuilding, flushing, stopping and restarting keep the user sound, except a restart before everything is on disk; a first stop whose write succeeds leaves nothing unsaved |
| `Generations.VersionsAreNeverReused` | internal/sync/server.go:117-205 | Over all hubs and all restarts that follow a first stop whose write succeeded, the versions given to clips strictly increase, and the live hub carries the stored version |
| `Generations.VersionsAreNeverReusedFromTheStart` | internal/sync/server.go:117-205 | So from the first start on, above the version the file had |
| `Generations.LostVersionsComeBack` | internal/sync/server.go:117-124 | After a restart that lost versions, the next texts are new exactly if the recovered version reaches the last one given |
| `Generations.AVersionIsGivenTwice` | internal/state/store.go:96-126 | A run without a flush before the restart gives one version out twice |
| `Restarts.Save` | internal/state/store.go:60-67 | On the store class: the maximum for that user, everyone unsaved |
| `Restarts.Flush` | internal/state/store.go:70-94 | On the store class: memory goes to disk for every user, exactly when dirty and the write succeeds |
| `Restarts.StopIt` | internal/state/store.go:111-126 | On the store class: the first stop flushes, a later one does nothing |
| `Restarts.Reopen` | internal/state/store.go:34-51 | Starting from the file: every user has its version on disk, unless the file is malformed |
| `Restarts.StopAndRestart` | internal/state/store.go:111-126 | A first stop whose write succeeds and a restart bring every version back exactly unless a name is blank |
| `SyncServer.Registry.GetOrAdd` | internal/hub/registry.go:24-33 | The registered hub, or a new one at the given version |
| `SyncServer.Registry.TryGet` | internal/hub/registry.go:36-41 | The registered hub, if any |
| `SyncServer.Registry.RemoveIfEmpty` | internal/hub/registry.go:44-56 | Removes exactly an empty hub that its window lets go and that is still the registered one |
| `SyncServer.Registry.Remove` | internal/hub/registry.go:59-67 | Removes exactly if still the registered one |
| `SyncServer.Server.GetOrCreateHub` | internal/sync/server.go:117-124 | A new hub starts at the stored version |
| `SyncServer.Server.CloseRecoveryWindow` | internal/hub/hub.go:305-347 | The close, and the removal of a hub that it leaves without connections |
| `SyncServer.Server.CancelProvisional` | internal/sync/server.go:260-277 | For a connection without a hub: struck off and closed |
| `SyncServer.Server.RegisterPendingHello` | internal/sync/server.go:208-212 | Appends |
| `SyncServer.Server.UnregisterPendingHello` | internal/sync/server.go:215-224 | Removes the first occurrence |
| `SyncServer.Server.EnqueueHelloTimeout` | internal/sync/server.go:226-234 | Starts the timeout once and strikes the connection off |
| `SyncServer.Server.CancelConnection` | internal/sync/server.go:260-277 | For a connection with a hub: strikes off, closes and unlists, the last two only the first time |
| `SyncServer.Server.ScanConnections` | internal/sync/server.go:129-165 | One hub's part of a scan: pings that are due, then everyone who timed out |
| `SyncServer.Server.ScanPending` | internal/sync/server.go:172-186 | The late hellos |
| `SyncServer.Server.RebuildHub` | internal/sync/server.go:190-200 | Unregisters the hub and cancels all its connections, unless it was already replaced |
| `ScanSpec.ScanKeeps` | internal/sync/server.go:127-166 | A scan keeps everything a hub promises |
| `ScanSpec.ScanUnlistsExactly` | internal/sync/server.go:127-166 | A scan unlists exactly the silent connections that are still open after their ping; one that falls to a full queue stays listed |
| `ScanSpec.LateHellosGo` | internal/sync/server.go:172-186 | Exactly the late hellos whose timeout starts are struck off |
| `ScanSpec.RebuildClosesAll` | internal/sync/server.go:190-200 | All listed connections end closed; only those closed before stay listed |
| `Heartbeat.PongsNeverOutnumberPings` | internal/models/context.go:96-112 | Accepted pongs never outnumber pings |
| `Heartbeat.PromptConnectionsStay` | internal/sync/server.go:145-155 | If scans are at most d apart, pings are answered within r, and interval + d + r is below the timeout, no scan times the connection out |
| `Heartbeat.SilentConnectionsEnd` | internal/sync/server.go:153-155 | A connection none of whose pongs is processed, read or not, is timed out by the first scan at or after its last sign of life plus the timeout, and by no earlier one |

## Left out

- Goroutine races inside one hub: the atomic steps above take their place.
- WebSocket, HTTP, TLS, certificates, the file watcher, shutdown sleeps and close handshakes: input and output around libraries.
- Argon2, HMAC and Base64 themselves: parameters. That a compact token string is unique is not claimed, because the Base64 decoder is lenient.
- Login handling (internal/auth/login.go): it only joins the limiter and the token code.
- Loading the configuration: only its positivity checks appear, as preconditions.
- Times as text: parsing and formatting are parameters; the fraction digits of a client time are not modelled.
- Message texts of protocol errors are constructors, and log lines are dropped.
- Ping, bye, error and login frames as bytes: flat objects of strings and numbers, built like the acknowledgement in ServerFrames.
- Frames inside a hub are values, not bytes; ServerFrames says what the bytes of the three frames with texts mean.
- StateStore.Load: takes the state file as its list of entries; the decoding of its JSON by encoding/json is not modelled.
- Option parsing, password input, the file lock and the listing and hashing commands of the command line.
- The loop of ScanHeartbeats over all hubs and the idle time after which an empty hub is dropped: each hub's part is modelled.
- SyncServer.Server.EnqueueHelloTimeout: the goroutine that then writes the error frame, waits and cancels is not modelled; the cancelling is SyncServer.Server.CancelProvisional.
- HubClosing.ClosingWelcomes: a simpler sufficient condition; the exact one is HubClosing.WelcomesExactly.
- UserHub.Hub.EnsureRecoveryWindowClosed and UserHub.Hub.AddConnection: the removal of a hub left empty by the close they trigger is the coordinator's, modelled in SyncServer.Server.CloseRecoveryWindow.
