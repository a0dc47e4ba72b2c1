# Reolink Station backend: verified model

This Dafny project models the parts of the Reolink Station backend whose behaviour spans many steps, and proves
what they promise.

- **Streaming a recording.** `WindowedRead` is the windowed SFTP reader as a state machine: each callback (the
  answer to `open`, the answer to a chunk read, and `drain`, `close` and `error` of the destination) is a step,
  and a run is any sequence of steps that the environment may deliver. `WindowedReadInvariant` holds what every
  step keeps, `WindowedReadRuns` what holds over whole runs, `WindowedReadTermination` the bounds on their
  length and `WindowedReadMemory` the buffers they hold.
  `WindowedReader` is the class with the closure variables as fields and arrays as buffers; each of its callbacks
  is proved to take the step of the state machine, so that every theorem about runs is one about the class.
- **The HTTP path in front of it.** `ByteRanges` is the Range header, `Delivery` the handler that sets the status
  and the headers, and the end-to-end statement about the bytes a client receives (sections 14.1.2, 14.4 and
  15.5.17 of RFC 9110).
- **The storage.** `PosixPaths` gives `path.posix.normalize` and `join` over characters, by their documented
  segment semantics. `PathSafety` proves what the character test of `resolveSafe` means in segments. `Storage` and
  `SftpClient` are the storage box and the recursive walk of `prune`; `TtlCaches`, `CacheCoherence` and
  `RecordingsService` are the two caches and the requests that go through them, and `CacheSpellings` says exactly
  when the caches can be trusted. `FileRequests` joins the cached stat to the bytes that are streamed.
- **Profile ids.** `ProfileIds` is how requests spell the id of a profile, and the row that a spelling names.
- **Two database protocols.** `Invites`, `InviteRuns` and `InvitesService` are concurrent redemptions of invites;
  `Sharing`, `SharingRuns` and `SharingService` are profiles, shares and the guard. In both, only single
  statements are atomic, and the statements of any number of requests interleave.

Classes that change state are proved against functions on values (`View() == Step(old(View()), …)`), and the
lemmas are about those functions. In the database services each statement also says what it does to the tables; how
far the requests under way have come is ghost state.

## What the surroundings are assumed to do

- The callbacks of the SFTP session and the events of the destination arrive as later steps, never inside the call
  that causes them. (`pump` advances `nextOffset` only after it has called `readChunk`.)
- An answer to a read carries an error or at most the bytes that were asked for, from the position that was asked
  for. An event reaches the reader only through a listener that is attached. The destination has not emitted
  `close` before the listeners are attached. Whether a `write` is refused is arbitrary: `Config.full` can be any
  set of chunk offsets.
- A recording does not change while it is read, and an existing file is not rewritten while its stat is cached.
  Uploads bring new files, and directories may change their size and time at any moment.
- The base directory of a profile is absolute wherever the service is concerned; each profile has a storage box of
  its own and its configuration does not change. `PathSafety` itself covers every base directory.
- Ids that the database makes are fresh, and the unique columns are enforced. Ids of profiles are UUIDs, and an id
  in a request names a row by its lower-case form; the caches go by the id as the request spells it.
- Saving a row that was loaded before updates it, or inserts it again when it is gone meanwhile.
- Clock readings do not go back.

## Where code and documentation differ

- `resolveSafe` is documented to succeed if and only if the path stays within the base
  (src/recordings/path-safety.ts:4-7). That is so exactly for bases that are absolute or whose last resolved
  segment is a name (`PathSafety.ConfinesIffAnchored`). A relative base that resolves to the current directory
  rejects every name, and one that ends in `..` accepts its own parent.
- Streaming is documented never to buffer the file (src/recordings/recordings.service.ts:63-66). With a window of two
  or more, all chunks but the head can be waiting at once, and no more than that (`WindowedReadMemory.WaitingExactly`).
  The window bounds all buffers exactly when it is one read wide or holds the whole span
  (`WindowedReadMemory.WindowBoundsIff`), which at the reader's own constants is a span of at most 768 KiB
  (`WindowedReadMemory.BoundedUpTo768KiB`).
- The caches are documented to be invalidated on delete and prune, and never to serve deleted files
  (src/recordings/recordings.service.ts:14-15, 88). Keys and invalidation go by the id as spelled, and the guard lets
  either case through, so a delete under another spelling leaves them stale (`CacheSpellings.StaleStat` and
  `CacheSpellings.StaleList`). Hits can be trusted in all runs over a set of ids if and only if no two of them name the
  same profile (`CacheSpellings.CoherentIffOneSpelling`).
- A removed profile can come back: an update that had loaded it saves it again, with its old owner and whatever shares
  are left over (`SharingRuns.ProfileComesBack`). It comes back if and only if such an update saves after the removal
  (`SharingRuns.ComesBackIff`), and until then nobody gets at it (`SharingRuns.AccessAfterRemoval`).
- A promise of the reader that resolves does not mean that the span is complete: a client that goes away resolves it
  too (`WindowedReadRuns.ResolvedIsNotComplete`). What was sent is complete exactly when the destination was ended.
- A range whose last position is before its first one is invalid by section 14.1.1 of RFC 9110, and section 14.2 lets
  a server ignore or reject it; the code answers 416, and so does the model.
- A claim is not undone when the insert that follows it fails, so an invite can be used up without an account
  (`InviteRuns.BurntInvite`). A redemption that claimed an invite ends as failed if and only if a statement of it failed
  after the claim, and otherwise there is an account for the invite's email (`InviteRuns.ClaimedAndEnded`).

## Model

| member | source | states |
|---|---|---|
| WindowedReadInvariant.StepKeeps | src/recordings/sftp-windowed-read.ts:45-121 | every callback, in any state it can find, keeps the invariant: the chunks between the two offsets are each once in flight or finished and hold the file's bytes, the output is the file from the start, the flags, listeners and the handle agree, and the window is full |
| WindowedReadInvariant.PumpKeeps | src/recordings/sftp-windowed-read.ts:99-107 | the loop that requests chunks fills the window up to the end of the span, without gap or overlap |
| WindowedReadInvariant.EmitLoopKeeps | src/recordings/sftp-windowed-read.ts:60-78 | the loop that writes finished chunks in order keeps the invariant, whether it ends the destination, meets a refusal or runs out of chunks |
| WindowedReadInvariant.OnReadKeeps | src/recordings/sftp-windowed-read.ts:88-96 | a read answer of any length keeps it: end of file, short read and full chunk |
| WindowedReadRuns.RunKeeps | src/recordings/sftp-windowed-read.ts:29-123 | the invariant holds after every run |
| WindowedReadRuns.WrittenIsPrefixOfSpan | src/recordings/sftp-windowed-read.ts:60-78 | at every moment of every run the destination has exactly the file from the start to the emit offset, never past the span, and is ended at most once, exactly when it has all of the span |
| WindowedReadRuns.TruncatedFileNeverEnds | src/recordings/sftp-windowed-read.ts:67-70 | a file shorter than the span is never passed off as complete |
| WindowedReadRuns.EarlyEofRejects | src/recordings/sftp-windowed-read.ts:91 | an empty answer rejects with its position, with only a proper prefix written, the destination not ended, and the handle closed |
| WindowedReadRuns.Conservation | src/recordings/sftp-windowed-read.ts:38-43 | while the run is open every position between the two offsets lies in exactly one chunk, in flight or finished, with the file's bytes; `inflight` counts the reads in flight and never exceeds the window |
| WindowedReadRuns.NeverStalls | src/recordings/sftp-windowed-read.ts:60-107 | no lost wake-up: an open, unfinished run always has an answer outstanding or waits for a drain event it listens for |
| WindowedReadRuns.QuietMeansComplete | src/recordings/sftp-windowed-read.ts:60-107 | so an open run that waits for nothing has delivered the whole span |
| WindowedReadRuns.WindowKeptFull | src/recordings/sftp-windowed-read.ts:99-107 | without backpressure exactly WINDOW reads are in flight until everything is requested |
| WindowedReadRuns.SettlesAndClosesOnce | src/recordings/sftp-windowed-read.ts:45-55 | the promise settles at most once; the handle is opened at most once and closed exactly once when the run has settled, also when the open is answered later |
| WindowedReadRuns.NothingAfterSettlement | src/recordings/sftp-windowed-read.ts:86-96 | once settled nothing is read, written or settled again, whatever still arrives |
| WindowedReadRuns.SettlesAtOnce | src/recordings/sftp-windowed-read.ts:45-58 | in every open run, the destination's close resolves at once, after the end as before it, and every error of the session or the destination rejects with that error; nothing else settles, and what settles closes the handle |
| WindowedReadRuns.SettlementHasACause | src/recordings/sftp-windowed-read.ts:45-58 | every settlement is the verdict on the one event that found the run open and ended it |
| WindowedReadRuns.ResolvedMeansDstClosed | src/recordings/sftp-windowed-read.ts:57 | the promise resolves only by the destination's close event |
| WindowedReadRuns.ResolvedIsNotComplete | src/recordings/sftp-windowed-read.ts:57 | a run that resolves with nothing written of a span that is not empty |
| WindowedReadRuns.WaitsOnlyWhenRefused | src/recordings/sftp-windowed-read.ts:71-75 | the reader waits for a drain event only when the last chunk it wrote was refused |
| WindowedReadRuns.RefusedWriteWaits | src/recordings/sftp-windowed-read.ts:66-75 | a refused chunk other than the last is the last one its step writes; the reader then listens for drain and has requested nothing new |
| WindowedReadRuns.Backpressure | src/recordings/sftp-windowed-read.ts:60-83 | while it waits for drain, in every interleaving, no byte is written and no new chunk is requested |
| WindowedReadRuns.BackpressureFromRefusal | src/recordings/sftp-windowed-read.ts:60-83 | from a refused write up to the next drain event the output ends with the refused chunk |
| WindowedReadTermination.StepMeasure | src/recordings/sftp-windowed-read.ts:60-107 | missing bytes, chunks to emit and the pending drain go down with every answer that brings bytes and every awaited drain, and never up |
| WindowedReadTermination.WorkIsBounded | src/recordings/sftp-windowed-read.ts:60-107 | every run has at most as many such events as the span has bytes and chunks, and the chunks are the fewest that cover the span |
| WindowedReadTermination.ReadsAreBounded | src/recordings/sftp-windowed-read.ts:86-107 | however short the answers are, a run never issues more reads than the span has bytes |
| WindowedReadMemory.WaitingExactly | src/recordings/sftp-windowed-read.ts:60-78 | for every file, span, chunk size and window: no run ever keeps more finished chunks than all but the head (none with a window of one), and some run keeps that many |
| WindowedReadMemory.WindowBoundsIff | src/recordings/sftp-windowed-read.ts:99-107 | finished and requested chunks together stay within the window in every run if and only if the window is one or holds all chunks of the span |
| WindowedReadMemory.BoundedUpTo768KiB | src/recordings/sftp-windowed-read.ts:17-18 | at the constants of the code that is so exactly for spans of at most 768 KiB |
| WindowedReadTermination.CanComplete | src/recordings/sftp-windowed-read.ts:60-107 | every open run over a file that reaches the end of the span, whatever has happened in it, can still be brought to its end by answers and drains: no dead end |
| WindowedReadTermination.CanFinish | src/recordings/sftp-windowed-read.ts:45-83 | and from there the close of the destination resolves it and releases the handle, with the whole span delivered |
| WindowedReader.Reader.Finish | src/recordings/sftp-windowed-read.ts:45-55 | the first call settles, drops the finished chunks and the listeners and closes the handle; any other does nothing |
| WindowedReader.Reader.EmitReady | src/recordings/sftp-windowed-read.ts:60-78 | the loop over the map of finished buffers does what the specified loop does |
| WindowedReader.Reader.Pump | src/recordings/sftp-windowed-read.ts:99-107 | the loop that allocates buffers and requests them does what the specified loop does |
| WindowedReader.Reader.OnOpened | src/recordings/sftp-windowed-read.ts:116-121 | the open callback takes the specified step: it closes at once after settlement, and starts reading otherwise |
| WindowedReader.Reader.OnOpenFailed | src/recordings/sftp-windowed-read.ts:117 | a failed open takes the specified step |
| WindowedReader.Reader.OnReadDone | src/recordings/sftp-windowed-read.ts:88-96 | the read callback, over buffers filled in place, takes the specified step |
| WindowedReader.Reader.OnReadFailed | src/recordings/sftp-windowed-read.ts:90 | a failed read takes the specified step |
| WindowedReader.Reader.OnDrain | src/recordings/sftp-windowed-read.ts:80-83 | the drain listener takes the specified step |
| WindowedReader.Reader.OnDstClose | src/recordings/sftp-windowed-read.ts:57 | the close listener takes the specified step |
| WindowedReader.Reader.OnDstError | src/recordings/sftp-windowed-read.ts:58 | the error listener takes the specified step |
| ByteRanges.TrimAround | src/recordings/recordings.controller.ts:62 | trimming drops the blanks around a text and nothing of the text |
| ByteRanges.SpellsIsTrimmedPattern | src/recordings/recordings.controller.ts:62 | the trimmed header is the pattern exactly when the header is blanks, `bytes=`, digits, a dash, digits and blanks |
| ByteRanges.MatchIsPattern | src/recordings/recordings.controller.ts:62 | the matcher finds two numbers exactly in the texts of the pattern |
| ByteRanges.ParseIntIsDecimal | src/recordings/recordings.controller.ts:70-76 | numerals are read as decimal: the digits in front of k more count for ten to the k |
| ByteRanges.ParseRangeIsDenotation | src/recordings/recordings.controller.ts:60-81 | every header of that form, blanks around it or not, is answered with exactly the bytes it denotes within the file, and unsatisfiable exactly when there are none |
| ByteRanges.OtherHeadersIgnored | src/recordings/recordings.controller.ts:61-66 | the whole file is served exactly for the absent and the other headers |
| ByteRanges.RangeRoundTrip | src/recordings/recordings.controller.ts:67-80 | printing a span inside the file and parsing it gives the same span back |
| ByteRanges.OpenRangesRoundTrip | src/recordings/recordings.controller.ts:69-78 | `bytes=n-` goes on to the last byte, `bytes=-n` takes the last n bytes or the whole file, and each is unsatisfiable exactly when it names nothing |
| Delivery.GetAnswers | src/recordings/recordings.controller.ts:27-51 | the answer to every GET, header by header: 200 streams the whole file, 206 streams the span that its Content-Range spells, 416 has the size alone |
| Delivery.HeadIsGetWithoutBody | src/recordings/recordings.controller.ts:46-49 | HEAD gets the status and headers of the GET and no body |
| Delivery.TypeFollowsSuffix | src/recordings/recordings.controller.ts:82-86 | the content type of each suffix, and of everything else |
| Delivery.GetCanBeDelivered | src/recordings/recordings.controller.ts:50-51 | every GET that is not refused starts a reader that can be brought to the end of what the headers announce, whatever the chunk size, the window and the refusals |
| Delivery.File | src/recordings/recordings.controller.ts:20-50 | status, headers and body of every answer: no path, a failed stat, 416, 206, 200 and HEAD |
| Delivery.StreamSettled | src/recordings/recordings.controller.ts:50-56 | when the run of the reader has settled the connection is cut exactly if the run rejected, and a response that is then neither ended nor cut, or short, belongs to a client that went away |
| Delivery.NoSilentTruncation | src/recordings/recordings.controller.ts:50-56 | in every settled run the client has the whole body, or the reader rejected, or the client went away; a file shorter than announced never looks complete |
| Delivery.ContentRangeNamesOneSpan | src/recordings/recordings.controller.ts:40 | a Content-Range value names one span and one size |
| Delivery.ClientReceivesWhatHeadersSay | src/recordings/recordings.controller.ts:27-51 | at every moment of every run the client has at most Content-Length bytes, all of them exactly when the body is ended; a 206 body is then the slice that Content-Range names and a 200 body the whole file, also when it is empty |
| Delivery.ClientReceivesDenotedBytes | src/recordings/recordings.controller.ts:27-51 | a body that ended for a well-formed Range header holds the bytes it denotes in the file, in order, no other and none missing |
| Delivery.UnsatisfiableIs416 | src/recordings/recordings.controller.ts:29-33 | 416, with the size and nothing else, exactly when the header denotes no byte |
| Delivery.RangesReassemble | src/recordings/recordings.controller.ts:38-51 | the bodies for consecutive ranges join to the file |
| FileRequests.FileIsDelivered | src/recordings/recordings.controller.ts:27-51 | from the stat, cached or not, to the last byte, in every run in which no delete named the profile in another spelling: a file request whose stream ends delivers the stored file with 200, and with 206 the slice that Content-Range names out of its true length |
| PosixPaths.RenderParts | src/recordings/path-safety.ts:20 | a normalized path has the segments, the leading and the trailing slash it was built from |
| PosixPaths.NormalizeIdempotent | src/recordings/path-safety.ts:20 | normalizing twice is normalizing once |
| PosixPaths.SplitJoin | src/recordings/path-safety.ts:20 | splitting undoes joining, over characters |
| PosixPaths.StepsOfAPath | src/recordings/path-safety.ts:20 | nothing and a dot stay, a name goes down one step and two dots take it back |
| PosixPaths.StepsAboveTheStart | src/recordings/path-safety.ts:20 | above the root there is only the root, and a relative path keeps its leading two dots |
| PosixPaths.IntoAndOut | src/recordings/path-safety.ts:20 | for every path, going into a directory and out again changes nothing |
| PathSafety.ParentIsForbidden | src/recordings/path-safety.ts:20-24 | two dots are refused from every absolute base but the root |
| PathSafety.SiblingIsForbidden | src/recordings/path-safety.ts:20-24 | what lies beside the base is refused, unless it is the base itself |
| PathSafety.DetourIsIgnored | src/recordings/path-safety.ts:20-25 | a detour through a directory and back is accepted alike, with the same result |
| PathSafety.CharacterPrefix | src/recordings/path-safety.ts:21-22 | the character prefix with its added slash agrees with the prefix of segments, sibling names included |
| PathSafety.AcceptedExactlyWithin | src/recordings/path-safety.ts:8-26 | a path is accepted exactly when it is relative and resolves to the base or below it, and the result is that resolution |
| PathSafety.AbsoluteResultIsClean | src/recordings/path-safety.ts:20-25 | from an absolute base the result is absolute, extends the base, and holds no `.` and no `..` |
| PathSafety.ConfinesIffAnchored | src/recordings/path-safety.ts:4-26 | the documented if-and-only-if holds exactly for bases that are absolute or end in a name |
| PathSafety.ListedEntryResolves | src/recordings/recordings.service.ts:118-121 | the path built for an entry of an accepted directory is accepted, and is that directory extended by the name |
| PathSafety.BrowsedPathResolves | src/recordings/recordings.service.ts:29-47 | so a path reached by browsing to any depth denotes the entry browsed to |
| Storage.RemovalKeepsTree | src/recordings/recordings.service.ts:76-110 | removing entries that are not directories leaves a tree, smaller by their number |
| SftpClient.Client.Walk | src/recordings/recordings.service.ts:100-107 | on any finite tree the walk ends; it fails exactly when a directory refuses to be listed; otherwise exactly the old entries below it that can be deleted are gone, directories aside, and `deleted` counts them |
| SftpClient.Client.WalkItems | src/recordings/recordings.service.ts:102-106 | the loop over one listing removes what the visited names lead to, and stops at the first directory that refuses |
| TtlCaches.TtlCache.Get | src/recordings/recordings.cache.ts:4-9 | a slot is served up to and including its expiry, and dropped after it |
| TtlCaches.TtlCache.Set | src/recordings/recordings.cache.ts:10 | a value is kept for one time-to-live from now |
| TtlCaches.TtlCache.Invalidate | src/recordings/recordings.cache.ts:11-13 | exactly the keys with the prefix are dropped |
| CacheCoherence.KeyPrefix | src/recordings/recordings.service.ts:89-90 | invalidating the prefix of an id reaches exactly the keys made for that spelling of it |
| CacheCoherence.KeyInjective | src/recordings/recordings.service.ts:50 | different ids as spelled, or different paths, have different keys |
| CacheCoherence.StatsKept | src/recordings/recordings.service.ts:49-61 | every request, tick and upload leaves the cached stats of an id equal to the storage, directories aside, unless it deletes under another spelling of the id |
| CacheCoherence.StatHitIsFresh | src/recordings/recordings.service.ts:49-61 | in every run in which no delete or prune named the profile in another spelling, a file-stat hit is what the storage would answer now |
| CacheCoherence.StatAnswerIsFresh | src/recordings/recordings.service.ts:49-61 | in every such run whatever is answered to a stat of a file, from the cache or not, is its size and time now |
| CacheCoherence.StatHitIsYoung | src/recordings/recordings.service.ts:14-16 | a stat hit is an answer of the storage at most five minutes old |
| CacheCoherence.StatIsServedForFiveMinutes | src/recordings/recordings.service.ts:14-16 | a stat is answered again for five minutes without asking the storage, whatever comes in between but a delete under its spelling |
| CacheCoherence.ListIsServedForTenSeconds | src/recordings/recordings.service.ts:13 | a listing is answered again for ten seconds, likewise |
| CacheCoherence.RemoveDropsOneSpelling | src/recordings/recordings.service.ts:87-91 | a delete or prune drops the answers kept for the id as it spells it, and no other |
| CacheCoherence.ListAnswerIsRecent | src/recordings/recordings.service.ts:29-47 | whatever is answered to a listing, from the cache or not, is recent in that sense |
| CacheCoherence.ListHitIsRecent | src/recordings/recordings.service.ts:29-47 | in every such run a list hit is the listing of that directory at a moment at most ten seconds ago and after the last delete or prune of the profile |
| CacheSpellings.StaleStat | src/recordings/recordings.service.ts:87-91 | a run, for any two spellings of one id, in which a stat hit describes a deleted file |
| CacheSpellings.StaleList | src/recordings/recordings.service.ts:87-91 | a run in which a list hit is no listing since the profile's last delete |
| CacheSpellings.CoherentIffOneSpelling | src/recordings/recordings.service.ts:29-61 | for every set of request ids: stat hits are fresh in all runs over them, and list hits recent, if and only if no two of the ids name the same profile |
| ProfileIds.UuidText | src/sharing/camera-access.service.ts:9 | a request names a row exactly with hexadecimal digits in five groups with dashes |
| ProfileIds.LowerCaseIsStored | src/sharing/camera-access.service.ts:9 | an id in lower case is the row's own |
| ProfileIds.TwoSpellings | src/sharing/camera-access.service.ts:9 | an id with a leading letter has another spelling that the guard lets through and that names the same row |
| RecordingsService.Service.ListDir | src/recordings/recordings.service.ts:29-47 | the cached listing takes the coherent step; an error means a forbidden path or a directory that cannot be listed |
| RecordingsService.Service.Stat | src/recordings/recordings.service.ts:49-61 | the cached stat takes the coherent step; an error means a forbidden path or nothing there |
| RecordingsService.Service.DeleteFiles | src/recordings/recordings.service.ts:76-92 | exactly the deletable entries that the paths lead to are removed, each counted once, and the slots made for the id as this request spells it are dropped; one forbidden path fails the request before anything is deleted |
| RecordingsService.Service.Prune | src/recordings/recordings.service.ts:94-115 | exactly the old deletable entries below the base are removed and counted, or a directory could not be listed and only such entries are gone; the slots made for the id as this request spells it are dropped either way |
| RecordingsService.ListedEntryIsFound | src/recordings/recordings.service.ts:37-43 | the path of a listed entry leads back to that entry, with the kind, size and time that the listing showed |
| Invites.StepKeepsConsistent | src/invites/invites.service.ts:27-56 | every statement of every interleaving keeps: one account for each email, an invite redeemed exactly if one redemption claimed it, an account made exactly for each success, and every redemption bound to an invite that its token names |
| Invites.StepKeepsCounts | src/invites/invites.service.ts:38-48 | every statement adds as many accounts as successes, and as many redeemed invites as redemptions that hold one |
| InviteRuns.RunKeeps | src/invites/invites.service.ts:27-56 | both hold at every moment of every run |
| InviteRuns.RunExtends | src/invites/invites.service.ts:40-43 | claims are final, accounts stay, and a redemption that has ended does not move again |
| InviteRuns.ClaimedAtMostOnce | src/invites/invites.service.ts:39-44 | no interleaving claims an invite twice |
| InviteRuns.LookupDecides | src/invites/invites.service.ts:28-31 | a token without an open invite is refused for good, and any other lookup finds an open invite of that token |
| InviteRuns.EmailIsCheckedFirst | src/invites/invites.service.ts:33-35 | a redemption whose email has an account at the check ends as a conflict for good and claims nothing; any other goes on |
| InviteRuns.LosersAreRefused | src/invites/invites.service.ts:39-44 | of the redemptions about to claim one invite the first gets it; the update of every other affects no row and that redemption ends as invalid, for good |
| InviteRuns.RedeemedIffOneHolder | src/invites/invites.service.ts:39-44 | an invite is redeemed exactly when some redemption claimed it, and then exactly one did |
| InviteRuns.ClaimsItsToken | src/invites/invites.service.ts:28-43 | the invite that a redemption claims is one that the token it was started with names |
| InviteRuns.SuccessMadeItsAccount | src/invites/invites.service.ts:46-48 | a success made one account, the only one with the email of the invite it claimed |
| InviteRuns.AccountsAreConserved | src/users/user.entity.ts:6 | accounts made by redemption equal the successes, never exceed the claimed invites, and no two accounts share an email |
| InviteRuns.AnsweredMeansAccount | src/invites/invites.service.ts:33-35 | after success or conflict there is, from then on, an account with the email of an invite that the presented token names |
| InviteRuns.ClaimedAndEnded | src/invites/invites.service.ts:46-55 | a redemption that claimed an invite and has ended failed if and only if a statement of it failed after the claim; it made an account if and only if it succeeded; and without that failure there is an account for the invite's email |
| InviteRuns.BurntForGood | src/invites/invites.service.ts:40-55 | after a claim whose redemption ended without success no redemption of that invite succeeds |
| InviteRuns.BurntInvite | src/invites/invites.service.ts:46-55 | a run that uses up an invite without any account, after which a second redemption is refused |
| InvitesService.Service.CreateInvite | src/invites/invites.service.ts:21-25 | exactly the new invite becomes open, under its token |
| InvitesService.Service.FindOpen | src/invites/invites.service.ts:28-31 | an open invite with the token, if there is one; the step of the protocol |
| InvitesService.Service.FindByEmail | src/invites/invites.service.ts:33-35 | whether the email has an account; the step of the protocol |
| InvitesService.Service.ClaimInvite | src/invites/invites.service.ts:40-44 | the update affects one row exactly if the invite was open, and exactly that invite is open no longer |
| InvitesService.Service.InsertAccount | src/invites/invites.service.ts:46-55 | the insert succeeds exactly if no account has the email |
| InvitesService.Service.Redeem | src/invites/invites.service.ts:27-56 | a redemption that runs alone uses up one open invite for one account with its email, or changes nothing; which of them, and which error, is told by the tables before it |
| ProfileIds.RowIsCanonical | src/sharing/camera-access.service.ts:9 | the stored form of an id names its own row |
| Sharing.AloneIsAtomic | src/camera-profiles/camera-profiles.controller.ts:39-53 | the guard and the statements of a handler, run alone, add up to one atomic request |
| Sharing.UpdateKeepsBlanks | src/camera-profiles/camera-profiles.service.ts:82-110 | an update takes the settings it gives, keeps those it leaves out or blank, and touches no owner, no share and no other profile |
| Sharing.EditHandlerKeepsBlanks | src/camera-profiles/camera-profiles.service.ts:82-110 | so do its load and save, when nothing comes between them |
| Sharing.GrantThenAccess | src/sharing/sharing.service.ts:14-20 | a grant gives its grantee exactly the granted level, unless that is the owner, and everyone else what they had |
| Sharing.RevokeUndoesGrant | src/sharing/sharing.service.ts:22-25 | revoking a first grant gives the tables back |
| Sharing.ListedHowOften | src/camera-profiles/camera-profiles.controller.ts:25-37 | a profile is listed once, and twice exactly to an owner who also holds a share of it |
| SharingRuns.StepKeeps | src/sharing/sharing.service.ts:14-29 | every statement of every interleaving keeps: each share was granted, each grant was made by the owner or by someone let manage the profile before, and so was each request past the guard that may change something |
| SharingRuns.OwnerStaysOwner | src/sharing/camera-access.service.ts:22 | under any grants and revokes the owner stays owner exactly as long as the profile is there |
| SharingRuns.AccessAfterRemoval | src/camera-profiles/camera-profiles.service.ts:96-100 | somebody gets at a removed profile again if and only if an update has saved it since and no removal deleted it after that; shares that are left over or written later do not matter |
| SharingRuns.ComesBackIff | src/camera-profiles/camera-profiles.service.ts:82-93 | a removed profile is there again if and only if an update that had loaded it before saves it afterwards |
| SharingRuns.ProfileComesBack | src/camera-profiles/camera-profiles.service.ts:82-100 | a run in which a removed profile comes back with its owner, and a share left over gives access again |
| SharingRuns.ChangeIsCleared | src/sharing/camera-access.guard.ts:14-22 | a profile and its shares change only in the step that creates it and in steps of a request that the guard let through as the owner's or a manager's |
| SharingRuns.GuardAnswers | src/sharing/camera-access.guard.ts:14-22 | not found exactly without a level, forbidden exactly to a viewer who wants to change something, and everyone else is let through under the level they have |
| SharingRuns.FineMeansDone | src/camera-profiles/camera-profiles.controller.ts:39-53 | a request is answered as done by the last statement of its handler and by nothing else |
| SharingRuns.ViewersChangeNothing | src/sharing/camera-access.guard.ts:17-19 | a request whose user may at most view the profile when the guard looks changes no profile and no share |
| SharingRuns.LevelTracesToOwner | src/sharing/camera-access.service.ts:23-24 | every level but the owner's traces back through a finite chain of grants, each by someone let manage the profile by an earlier one, to a grant by the owner |
| SharingRuns.ListIsAccess | src/sharing/camera-access.service.ts:18-32 | in every reachable state the list holds exactly the profiles with a level of access, stale shares or not |
| SharingRuns.StaleShare | src/camera-profiles/camera-profiles.service.ts:96-100 | a run that leaves a share of a removed profile, which gives nobody access |
| SharingService.Service.AccessLevel | src/sharing/camera-access.service.ts:18-25 | the queries, one after the other, give the specified level |
| SharingService.Service.CanActivate | src/sharing/camera-access.guard.ts:14-22 | not found exactly without a level, forbidden exactly to a viewer where managing is required, and admitted otherwise |
| SharingService.Service.List | src/camera-profiles/camera-profiles.controller.ts:25-37 | the loop lists what is loaded for every id that is still there, and skips the others |
| SharingService.Service.Create | src/camera-profiles/camera-profiles.service.ts:41-49 | a new profile belongs to its creator |
| SharingService.Service.Admit | src/sharing/camera-access.guard.ts:14-22 | a request is let through exactly for a level of access that suffices for it |
| SharingService.Service.LoadProfile | src/camera-profiles/camera-profiles.service.ts:61-65 | the load of an update gives the row as it is now |
| SharingService.Service.SaveProfile | src/camera-profiles/camera-profiles.service.ts:93 | the save writes the loaded row, with the settings given and the blank ones kept, whether the row is still there or not, and no other row |
| SharingService.Service.Update | src/camera-profiles/camera-profiles.service.ts:82-94 | the profile is found exactly if it is there, and then only its settings change, blanks kept |
| SharingService.Service.SaveShare | src/sharing/sharing.service.ts:17-19 | the grantee has the permission afterwards, and every other share is as before |
| SharingService.Service.Revoke | src/sharing/sharing.service.ts:22-25 | exactly that share is gone |
| SharingService.Service.RevokeAllForProfile | src/sharing/sharing.service.ts:27-29 | exactly the shares of the profile are gone |
| SharingService.Service.DeleteRow | src/camera-profiles/camera-profiles.service.ts:98 | exactly the row is gone |
| SharingService.Service.Handle | src/camera-profiles/camera-profiles.controller.ts:39-53 | the handler of every route, without interruption, ends where the statements lead |
| SharingService.Service.Serve | src/sharing/sharing.controller.ts:13-21 | a request that runs alone, from the guard to its answer, does what the atomic request does |

## Left out

- CacheCoherence.StatHitIsFresh: says of a cached stat of a directory only that the directory is there, because its size and time change with its entries.
- InviteRuns.ClaimedAndEnded: leaves open what a failed statement did, because a statement that failed for the caller is taken to have changed nothing.
- The connection pool and the SSH library: `withConnection` acquires a connection, runs and releases it; a session is its callbacks.
- Cryptography: hashing of tokens and passwords, signed cookies, and the encryption of secrets in profiles. A token is its hash.
- Interleavings inside the recordings service: requests, ticks and uploads are atomic there. A listing in flight during a delete could be stored after the invalidation.
- Symbolic links, uploads during a prune, and changes to a file during a read: they are decided by the storage box.
- Numbers beyond 2^53 in Range headers: `ByteRanges` computes with unbounded integers.
- Errors of the storage other than a refused listing, a refused delete and a missing path.
- The storage takes a path with a trailing slash and one without it as the same entry.
- `RecordingsService` for relative base directories, which depend on the login directory of the SFTP account.
- Which branch of the save of a share runs: an existing row and a new one end up as the same share. When a racing grant makes the insert fail, the request fails without a change.
- The queries behind one access check or one list, and the reads that a save makes before it writes: each is one atomic step.
- Masking and encryption of the settings of a profile: a profile has one map of settings, in which an update keeps what it leaves blank.
- Routes that only read behind the same guard, such as those for recordings and live view, add no new case to the share machine.
- Login, roles, input validation, the live-view proxy, camera control over MQTT, deployment files and the user interface.
