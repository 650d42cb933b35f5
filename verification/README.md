# Formal models of the native capsule and managed boundary tools

This Dafny project models the parts of the repository whose correctness rests on protocols, parsers and loops over shared
state, and proves what they promise for all inputs, all runs and all interleavings. Run `dafny verify dfyconfig.toml` here.

| files | what they model |
|---|---|
| `BrokerWire.dfy`, `BrokerText.dfy` | the control socket's frames and the broker's JSON replies, with the client's reading side |
| `BrokerSpec.dfy`, `BrokerRuns.dfy`, `BrokerTheorems.dfy`, `BrokerJudgement.dfy` | the control broker as a machine over values, the invariants of all its runs, and what follows from them |
| `BrokerTurns.dfy`, `BrokerRequests.dfy`, `BrokerHistory.dfy`, `BrokerBytes.dfy` | what one turn, one request and one byte stream do, slot by slot, what kills the broker, and where over a run everything it reports comes from |
| `Broker.dfy` | the same broker over its arrays and fields, loop by loop, proved equal to the machine |
| `CacheProtocol.dfy`, `CacheProgress.dfy` | any number of interleaved callers of the authenticated cache, with exceptions and crashes, and which of them can get a lease |
| `CacheDescriptors.dfy` | who closes which descriptor in the cache code, on every exit |
| `UstarFields.dfy`, `Ustar.dfy`, `UstarHeaders.dfy`, `UstarTree.dfy` | the deterministic USTAR writer and the strict physical reader ("ustar Interchange Format", `pax`, IEEE Std 1003.1-2017) |
| `Search.dfy` | the chunked search for the compiled tool requirement |
| `Closure.dfy`, `ClosureLoads.dfy`, `ClosureWalk.dfy` | the Mach-O dependency closure walk, what a load name stands for, and why a walk fails |
| `Bundle.dfy`, `BundleCreate.dfy`, `BundleInstall.dfy`, `BundleProgress.dfy` | acquisition bundles: creation, verification, racing installers and what they achieve, offline opening |
| `Replay.dfy` | the replaying analyzer worker and its driver |
| `DiffGate.dfy`, `DiffSeparators.dfy`, `DiffMeaning.dfy` | the zero-context diff parser on well-formed diffs, on texts with further line separators, and on any text; the changed-line gate |
| `Record.dfy` | the wheel RECORD rewrite and verification, with the CSV reader and writer |
| `HierarchyCache.dfy`, `HierarchySections.dfy`, `HierarchyOrder.dfy` | the issue hierarchy cache: fetching, fingerprint, rendering and its sections, when a sync leaves the file alone, and what the order of fetching shows |
| `Bytes.dfy`, `Seqs.dfy`, `Texts.dfy`, `Sorting.dfy` | byte strings, sequences, characters and numbers in text, sorting |

## How the models are built

Code that changes things step by step is imperative here too: the broker is a class over its worker table and buffers, and
loops stay loops, each proved against a function; the theorems are about the functions. The environment (what `recv`, `send`,
`waitpid`, `read`, `kill`, `spawn`, the clock and the random source answer) is an argument. Protocols between processes are
state machines in which any process takes the next step, raises or crashes.

Times are integer nanoseconds. Digests are ideal: a digest is its input. Signatures are an arbitrary predicate. JSON that the
program writes and reads itself is a value, except for the broker's replies, which are modelled byte by byte.

## Where the code falls short of what it is for

- The broker (`scripts/macos_managed_boundary/control_broker.c:203-229`) accepts 1024 bytes of a worker's output, but dies when
  the reply about it is over 2048 bytes after escaping. `BrokerTheorems.ResultExactly` and `BrokerTheorems.StatusLength` say
  exactly for which outputs, `BrokerTheorems.TakenNewlinesKill` gives one with the reads that take it.
- The cache (`scripts/native_capsule_cache.py:450-469`): when the cleanup in the `finally` block raises after the lease was
  built, the lease is dropped without being closed and its descriptors stay open. `CacheDescriptors.Acquire` says for which
  answers of the calls this happens, `CacheDescriptors.LossHappens` gives such answers. An `os.fdopen` that raises without
  taking the descriptor over (line 265) leaves the output file open: `CacheDescriptors.LeakHappens`.
- The installer (`scripts/macos_managed_boundary/project_acquisition.py:498-518`) does not compare the identity in the copied
  descriptor with the one it verified in the staged tree. `BundleInstall.RunFilesExactly` says which entries added in a run are
  filed under their own identity: those whose copied descriptor has the body of the verified one. `BundleInstall.SwapMisfiles`
  gives runs in which it has not, and `BundleInstall.OpenStays` says that opening such an entry always fails.
- The diff parser (`scripts/pre_commit_code_review.py:301`) splits at every Python line separator, so a form feed inside an
  added line starts a line of its own. `DiffSeparators.RightExactly` says when the map is right all the same, as long as
  nothing like a destination follows what looks like a file header: exactly when no hunk header follows that either, and the
  range of each stray hunk header lies among the lines added anyway; `DiffMeaning.RightOnAny` says it for all diffs, line by
  line. `DiffGate.FormFeedMisleads`, `DiffSeparators.FileHeaderMisleads` and `DiffSeparators.StrayTargetMisleads` are families
  of diffs with each kind.
- The driver (`scripts/macos_managed_boundary/python_analyzers.py:709`) stops after eight worker runs, so an adapter with
  eight or more requests never completes, although each of its replies is right. `Replay.Drive` is exact about this, and
  `Replay.DriveAsking` gives such an adapter for every number of requests.
- The hierarchy cache (`scripts/sync_github_hierarchy_cache.py:227-235`) sorts sub-issues by number only, so those of several
  repositories with equal numbers keep the order in which they were fetched. `HierarchyOrder.TiedChildren` and
  `HierarchyOrder.TiedVerdict` say exactly when that rewrites the file, `HierarchyOrder.TiesRewrite` gives a fetch that does.

## Model

| member | source | states |
|---|---|---|
| `BrokerTheorems.EveryRequestAnsweredOnce` | scripts/macos_managed_boundary/control_broker.c:295-344 | In every live state of every run each request has exactly one queued reply, except the request of the one pending wait, which has none yet. |
| `BrokerTheorems.WaitAnsweredForItsWorker` | scripts/macos_managed_boundary/control_broker.c:309-323 | Every status reply describes the worker whose handle its request named; a wait is answered only once that worker is both reaped and has its output closed. |
| `BrokerTheorems.FragmentationIndependent` | scripts/macos_managed_boundary/control_broker.c:346-360 | For any two runs that received the same bytes, however cut up and timed, the dispatched payloads are the same: the 56-byte frames of the stream. The broker dies of a bad length exactly when the stream has one, after its fourth byte, and otherwise keeps exactly the residue. |
| `BrokerTheorems.ClientSeesReplies` | scripts/macos_managed_boundary/control_broker.c:182-195 | Bytes sent, followed by the bytes still queued, are the length-prefixed replies in order; the client's reader gets a prefix of the replies, and all of them once the queue is empty. |
| `BrokerTheorems.FinishedRepliesIdentical` | scripts/macos_managed_boundary/control_broker.c:203-229 | Once a worker is reaped and its output closed, all later replies about it have the same text. |
| `BrokerTheorems.HandlesIdentify` | scripts/macos_managed_boundary/control_broker.c:280-286 | Handles are nonzero and equal only for the same slot, over the whole run; the table never shrinks and never holds more than eight workers. |
| `BrokerTheorems.TimersFireOnce` | scripts/macos_managed_boundary/control_broker.c:407-422 | Each worker is killed for a timeout at most once in a run, never after an accepted cancel; a reaped worker keeps its status. |
| `BrokerTheorems.SleepsToEarliest` | scripts/macos_managed_boundary/control_broker.c:407-446 | In every turn that reaches `select`, the sleep ends exactly at the least of the session, accept, partial-frame, unreaped-worker and reconcile deadlines, and that is strictly ahead. |
| `BrokerTheorems.StatusSurvives` | scripts/macos_managed_boundary/control_broker.c:203-229 | Reading a status reply by the format's own shape gives back every field and the worker's exact output bytes. |
| `BrokerTheorems.QueuedTextsWhole` | scripts/macos_managed_boundary/control_broker.c:182-184 | No reply cut short by `snprintf` is ever queued: every queued text is whole, not empty and within the limit the client shares. |
| `BrokerTheorems.AboutReadable` | scripts/macos_managed_boundary/control_broker.c:219-229 | The literal stretches of the status format delimit its fields unambiguously when the output is printable. |
| `BrokerTheorems.ResultExactly` | scripts/macos_managed_boundary/control_broker.c:182-229 | A status reply is queued exactly when the output is printable, and the size of the text, as computed from the output, is at most 2048 bytes and fits the queue with its prefix; otherwise the broker dies, of the first of these that fails. |
| `BrokerTheorems.StatusLength` | scripts/macos_managed_boundary/control_broker.c:203-229 | A status text is as long as that of the same worker without output, plus the output, plus one byte for each newline, quote and backslash. |
| `BrokerTheorems.NewlinesKill` | scripts/macos_managed_boundary/control_broker.c:203-229 | Whenever a slot holds a full buffer of newlines, its status reply is over the limit and kills the broker. |
| `BrokerTheorems.TakenNewlinesKill` | scripts/macos_managed_boundary/control_broker.c:395-405 | Four reads take 1024 newlines from a worker, each leaving the broker alive, and the next reply about that worker kills it. |
| `BrokerJudgement.EveryReplyDeserved` | scripts/macos_managed_boundary/control_broker.c:295-322 | Over every run: the first check a request fails names its error, both ways (version, opcode, reserved, capability, authentication, arguments), and only a request that passes them all is acted on. |
| `BrokerJudgement.AuthenticationFirst` | scripts/macos_managed_boundary/control_broker.c:308-318 | Before an authentication with the capability is granted nothing is launched and only errors are answered; it is granted once. |
| `BrokerJudgement.RunJudged` | scripts/macos_managed_boundary/control_broker.c:295-344 | Every state of every run keeps the judgement invariant. |
| `BrokerJudgement.RequestJudged` | scripts/macos_managed_boundary/control_broker.c:295-344 | Dispatching a payload keeps it. |
| `BrokerRuns.RunSafety` | scripts/macos_managed_boundary/control_broker.c:433-487 | Over every run: the full invariant in every state, and lawful change of every worker slot, log, reply list and byte history between any two. |
| `BrokerRuns.StepInv` | scripts/macos_managed_boundary/control_broker.c:433-487 | One turn of the loop keeps the invariant and changes the state lawfully. |
| `BrokerRuns.RunExists` | scripts/macos_managed_boundary/control_broker.c:433-487 | Any turns with no negative time and more than eight distinct nonzero 64-bit draws each have a run, from every initial state. |
| `BrokerRuns.InitialInv` | scripts/macos_managed_boundary/control_broker.c:54-60 | The static initial state satisfies the invariant. |
| `BrokerRuns.RequestServes` | scripts/macos_managed_boundary/control_broker.c:295-344 | Dispatching one payload dies or either queues exactly one reply for it or makes it the pending wait. |
| `BrokerRuns.ReceiveKeeps` | scripts/macos_managed_boundary/control_broker.c:346-360 | One `recv` of any size keeps the invariant, the frame assembler included. |
| `BrokerRuns.ReapKeeps` | scripts/macos_managed_boundary/control_broker.c:362-393 | Reaping keeps the invariant, and a recorded status never changes; that it is the one `waitpid` answered is `BrokerTurns.StatusIsWaited`. |
| `BrokerRuns.ExpireKeeps` | scripts/macos_managed_boundary/control_broker.c:407-422 | Expiry keeps the invariant, and afterwards every unreaped worker's deadline lies ahead. |
| `BrokerRuns.WakeIsEarliest` | scripts/macos_managed_boundary/control_broker.c:407-446 | The computed wake-up time is one of the candidate deadlines, the least of them, and strictly ahead. |
| `BrokerRuns.AnswerPendingKeeps` | scripts/macos_managed_boundary/control_broker.c:447-451 | Answering the finished wait keeps the invariant and removes the wait. |
| `BrokerRuns.SendKeeps` | scripts/macos_managed_boundary/control_broker.c:471-476 | Any partial send keeps the queue equation: sent bytes then queued bytes are the replies. |
| `BrokerRuns.AcceptKeeps` | scripts/macos_managed_boundary/control_broker.c:477-484 | Accepting a client keeps the invariant; later and untrusted peers are turned away. |
| `BrokerRuns.DrainKeeps` | scripts/macos_managed_boundary/control_broker.c:395-405 | Reading worker output keeps the invariant; accepted output only grows and stays within its buffer. |
| `BrokerRuns.QueueKeeps` | scripts/macos_managed_boundary/control_broker.c:182-195 | Queueing a reply keeps the invariant up to the reply count, and appends exactly that reply to the history. |
| `BrokerRuns.LaunchServes` | scripts/macos_managed_boundary/control_broker.c:231-287 | A launch adds at most one slot with a fresh handle and gives its request its one reply. |
| `BrokerTurns.StatusIsWaited` | scripts/macos_managed_boundary/control_broker.c:362-393 | Over every run: a worker that is reaped was found ended in one earlier turn in which it was not reaped yet, and its status is the one `waitpid` answered for it then. |
| `BrokerTurns.WaitedIsReaped` | scripts/macos_managed_boundary/control_broker.c:362-393 | A turn that finds a worker ended and that the broker survives records that answer, and it stays in every later state. |
| `BrokerTurns.ReplyIsWaited` | scripts/macos_managed_boundary/control_broker.c:203-229 | Every reply about a reaped worker gives the exit code or the signal that `waitpid` answered for that process in an earlier turn, and no other. |
| `BrokerTurns.ReapSlots` | scripts/macos_managed_boundary/control_broker.c:362-393 | Reaping changes each worker by the answers about it alone; the broker lives exactly when all of them are fine, and otherwise dies of the first that is not, for the reason that one gives. |
| `BrokerTurns.ExpireSlots` | scripts/macos_managed_boundary/control_broker.c:407-422 | Expiring kills exactly the unreaped workers whose deadline has passed, each once, and leaves the others as they are; the broker dies exactly when one of them cannot be killed. |
| `BrokerTurns.DrainSlots` | scripts/macos_managed_boundary/control_broker.c:395-405 | Draining appends to each open output what was read from its own pipe and closes it at its end; the broker lives exactly when no read fails or overflows its buffer. |
| `BrokerTurns.PrepareSlots` | scripts/macos_managed_boundary/control_broker.c:439-451 | Before `select` every worker is changed by its own wait answer and then by its own deadline, whatever happens to the others. |
| `BrokerRequests.RequestSlots` | scripts/macos_managed_boundary/control_broker.c:295-344 | An admitted request changes exactly the worker whose handle it names, or adds the one a launch spawns, with a fresh handle and its own deadline. |
| `BrokerRequests.RequestAnswers` | scripts/macos_managed_boundary/control_broker.c:295-344 | An admitted request becomes the pending wait exactly when it waits for an unfinished worker and no wait pends; otherwise it gets the one reply that the table and the environment decide, and a reply about a worker shows its slot as it then stands. |
| `BrokerRequests.RequestLives` | scripts/macos_managed_boundary/control_broker.c:295-344 | The broker dies of a request exactly when it is the sixty-fifth, its launch cannot be set up, its worker cannot be signalled, or the reply it gets is not printable, too long or has no room. |
| `BrokerHistory.TurnSlots` | scripts/macos_managed_boundary/control_broker.c:433-487 | In a turn the broker survives each worker is changed by its wait answer, its deadline, the turn's request if that is admitted and names it, and the reads from its pipe, in this order; one is added exactly when the request is a launch that succeeds. |
| `BrokerHistory.OutputIsRead` | scripts/macos_managed_boundary/control_broker.c:395-405 | Over every run: each worker of a live state was launched in one earlier turn by an admitted request, as the process spawned then; its output is exactly what was read from its pipe since, in order, up to its end. |
| `BrokerHistory.TurnClient` | scripts/macos_managed_boundary/control_broker.c:439-487 | The client's side of a turn, field by field: the finished wait is answered, the bytes that came are taken in, the one payload that is now complete is handled, as many bytes are sent as there is room for, and a trusted peer is accepted if there is no client. |
| `BrokerHistory.PrepareLives` | scripts/macos_managed_boundary/control_broker.c:439-451 | Before `select` the broker dies exactly when a wait answer is not fine, a deadline of its own has passed, a late worker cannot be killed, or the reply to the finished wait does not fit. |
| `BrokerHistory.ServeLives` | scripts/macos_managed_boundary/control_broker.c:466-486 | From `select` on it dies exactly when `select` fails, what was received kills it, a send or an accept that is made fails, or a read from a worker fails or overflows. |
| `BrokerHistory.ReceiveLives` | scripts/macos_managed_boundary/control_broker.c:346-360 | One `recv` kills the broker exactly at the end of the stream, on failure, on a wrong length or by the dispatch of the payload; otherwise the bytes are appended, and a complete frame is dispatched at once. |
| `BrokerBytes.RepliesSpelled` | scripts/macos_managed_boundary/control_broker.c:197-229 | The texts of all replies, each name next to its value. |
| `BrokerBytes.ReceivedAccounted` | scripts/macos_managed_boundary/control_broker.c:346-360 | In every live state of every run the bytes received are the dispatched payloads, each behind its length, followed by what is in the buffer. |
| `BrokerBytes.FramesParse` | scripts/macos_managed_boundary/control_broker.c:346-360 | Payloads framed one after the other are taken apart again, whatever follows them. |
| `BrokerWire.DecodeInvertsEncode` | scripts/macos_managed_boundary/control.py:118-125 | The broker's field decoding inverts the client's request frame, for every field value in range. |
| `BrokerWire.ParseResumes` | scripts/macos_managed_boundary/control_broker.c:346-360 | Parsing a stream in two parts, resuming from the residue, equals parsing it whole. |
| `BrokerWire.ClientReadsReplies` | scripts/macos_managed_boundary/control.py:128-147 | Of the wire form of any replies, any arrived prefix reads as a prefix of the replies, and the whole reads as all of them. |
| `BrokerText.ScanInvertsEscape` | scripts/macos_managed_boundary/control_broker.c:203-218 | Unescaping a JSON string (section 7 of RFC 8259) gives back the bytes the broker escaped, whatever follows. |
| `BrokerText.ReadInvertsShow` | scripts/macos_managed_boundary/control_broker.c:219-229 | Any reply made of literals, numbers, words, flags and escaped text reads back as the same pieces. |
| `BrokerText.ScanInvertsSigned` | scripts/macos_managed_boundary/control_broker.c:219-229 | A printed signed number reads back as itself. |
| `Broker.Broker.constructor` | scripts/macos_managed_boundary/control_broker.c:433-438 | A new broker is in the initial state, with its deadlines 30 and 5 seconds ahead. |
| `Broker.Broker.Compact` | scripts/macos_managed_boundary/control_broker.c:185-189 | Moving the unsent bytes to the front changes nothing abstractly. |
| `Broker.Broker.Queue` | scripts/macos_managed_boundary/control_broker.c:182-195 | The compacting buffer does what the abstract queue does, oversize and overflow deaths included. |
| `Broker.Broker.Result` | scripts/macos_managed_boundary/control_broker.c:203-229 | The formatted reply is the status text, through the escaping loop and the two buffers. |
| `Broker.Broker.Launch` | scripts/macos_managed_boundary/control_broker.c:231-287 | The slot table does what the abstract launch does, with the handle drawn until fresh. |
| `Broker.Broker.Integer` | scripts/macos_managed_boundary/control_broker.c:289-293 | The loop computes the big-endian number of the field. |
| `Broker.Broker.Examine` | scripts/macos_managed_boundary/control_broker.c:295-303 | The common checks in their order, on the fields as decoded from the frame buffer. |
| `Broker.Broker.Request` | scripts/macos_managed_boundary/control_broker.c:295-344 | Dispatch over the buffers equals dispatch on values. |
| `Broker.Broker.AcceptWait` | scripts/macos_managed_boundary/control_broker.c:309-321 | The wait is answered at once, deferred, or refused, as on values. |
| `Broker.Broker.Control` | scripts/macos_managed_boundary/control_broker.c:323-343 | Signal and cancel over the table equal their value form. |
| `Broker.Broker.Receive` | scripts/macos_managed_boundary/control_broker.c:346-360 | The in-place frame assembler equals the value form, for any fragment. |
| `Broker.Broker.Reap` | scripts/macos_managed_boundary/control_broker.c:362-393 | The reaping loop over the slots equals its value form, of which `BrokerTurns.ReapSlots` says what it does to each slot. |
| `Broker.Broker.ExpireWorkers` | scripts/macos_managed_boundary/control_broker.c:407-422 | The expiry loop equals its value form and returns the least deadline. |
| `Broker.Broker.Reconcile` | scripts/macos_managed_boundary/control_broker.c:427-431 | The reconcile bound applies exactly while some worker is unreaped. |
| `Broker.Broker.Complete` | scripts/macos_managed_boundary/control_broker.c:447-451 | The deferred wait is answered as on values. |
| `Broker.Broker.SendOutput` | scripts/macos_managed_boundary/control_broker.c:471-476 | A partial send, with the reset of an emptied buffer, equals its value form. |
| `Broker.Broker.Drain` | scripts/macos_managed_boundary/control_broker.c:395-405 | Reading output into the slot equals its value form. |
| `Broker.Broker.AcceptClient` | scripts/macos_managed_boundary/control_broker.c:477-484 | Accepting equals its value form. |
| `Broker.Broker.TakeTurn` | scripts/macos_managed_boundary/control_broker.c:439-486 | One turn of the loop over the buffers is one step of the abstract machine. |
| `Broker.Broker.Loop` | scripts/macos_managed_boundary/control_broker.c:433-487 | The loop over any turns follows the abstract run, so everything proved of runs holds of it. |
| `Broker.Broker.LoopOnAny` | scripts/macos_managed_boundary/control_broker.c:433-487 | On any such turns the loop over the buffers goes through a run of the machine. |
| `Broker.EscapeOutput` | scripts/macos_managed_boundary/control_broker.c:203-218 | The escaping loop fails exactly on unprintable bytes, stays inside its buffer and computes the escaped text. |
| `Broker.FormatsStatus` | scripts/macos_managed_boundary/control_broker.c:219-229 | The format string, filled in, is the status text. |
| `CacheProtocol.PublishedIsSigned` | scripts/native_capsule_cache.py:385-469 | Over every interleaving with exceptions and crashes: an entry that is absent or the signed tree at the start (paths, modes, contents) is absent or the signed tree ever after, and once there is never replaced, changed or removed. |
| `CacheProtocol.OnlySignedTreesAreLeased` | scripts/native_capsule_cache.py:442-449 | Whatever the root held at the start: only a published tree that is exactly the signed one is leased, and it stays that, under its name, for the rest of the run. |
| `CacheProtocol.UnsignedNeverLeased` | scripts/native_capsule_cache.py:442-449 | A caller whose entry is there and is not the signed tree fails, however the callers interleave. |
| `CacheProtocol.CleanupNeverReachesPublished` | scripts/native_capsule_cache.py:450-463 | Whenever the cleanup removes something through the staging descriptor, that inode is published under no identity, although the descriptor survives the rename. |
| `CacheProtocol.RenameFindsTargetAbsent` | scripts/native_capsule_cache.py:422-440 | The publishing rename always finds its target absent: two installers of one identity never overlap. |
| `CacheProtocol.VerifiedIsSigned` | scripts/native_capsule_cache.py:290-352 | A walk that checked every path it listed and found all it expected saw exactly the signed tree. |
| `CacheProtocol.StepInv` | scripts/native_capsule_cache.py:385-469 | Every step of every caller, an exception or a crash included, keeps the invariant. What an extraction leaves behind is `CacheProgress.RunStagesRight`. |
| `CacheProtocol.RunInv` | scripts/native_capsule_cache.py:385-469 | The invariant holds in every state of every run. |
| `CacheProtocol.RunKeepsPublished` | scripts/native_capsule_cache.py:385-469 | Between any two states of a run every published inode keeps its name and its tree. |
| `CacheProtocol.RenameInv` | scripts/native_capsule_cache.py:440-440 | The rename keeps the invariant: it publishes the verified tree and takes the staging name away. |
| `CacheProtocol.RemoveStageInv` | scripts/native_capsule_cache.py:355-367 | Removing the emptied staging tree keeps the invariant. |
| `CacheProtocol.StageIsPrivate` | scripts/native_capsule_cache.py:432-439 | A staging inode is linked under its staging name only, so writes through the descriptor reach nobody else. |
| `CacheProtocol.OneInstaller` | scripts/native_capsule_cache.py:413-422 | Two holders of locks work on different identities. |
| `CacheProgress.RunStagesRight` | scripts/native_capsule_cache.py:239-273 | While a caller extracts, every file it has seen except the one being written equals its signed record, mode included, in every state of every run. |
| `CacheProgress.ExtractedIsSigned` | scripts/native_capsule_cache.py:239-273 | So once all files have been seen the staging tree is the signed tree. |
| `CacheProgress.LeaseExactly` | scripts/native_capsule_cache.py:385-469 | In every state of every run, a caller can go on by itself, without an exception or a crash, to a lease of the signed entry exactly when it has not failed or crashed, has or can take the lock, and finds the signed entry or is online to install it. |
| `CacheProgress.CleanupEnds` | scripts/native_capsule_cache.py:450-469 | The cleanup can always go on to its end, and then no staging tree of that caller is left. |
| `CacheDescriptors.Root` | scripts/native_capsule_cache.py:196-214 | Whatever fails, either the returned descriptor alone is left open, or nothing is; it is returned exactly when every component is canonical and opens and the last is private. |
| `CacheDescriptors.Extract` | scripts/native_capsule_cache.py:239-273 | Extraction works exactly when every member does and none is missing. On every exit it leaves no descriptor open, but for the output file of a first failing member whose `os.fdopen` raised without taking it over. |
| `CacheDescriptors.Descend` | scripts/native_capsule_cache.py:258-265 | Of the directories above a member one is held at a time, and none after a failure. |
| `CacheDescriptors.Walk` | scripts/native_capsule_cache.py:296-336 | The walk's two collections hold exactly the descriptors it opened, each once, wherever it stops; it succeeds exactly when every entry of the tree does. |
| `CacheDescriptors.Verify` | scripts/native_capsule_cache.py:290-352 | Verification returns a lease that owns all it opened, exactly when every check works, or leaves nothing open. |
| `CacheDescriptors.RemoveTree` | scripts/native_capsule_cache.py:355-367 | Removal closes every descriptor it opens, whether or not removing works; it works exactly when every entry goes. |
| `CacheDescriptors.Acquire` | scripts/native_capsule_cache.py:385-469 | Which calls fail decides everything: a lease is returned, and owns all that stays open, exactly when it was built and the cleanup did not raise. A built lease is lost exactly when the staging directory was opened and its name then cannot be looked up or removed; a call that found the entry loses nothing. |
| `CacheDescriptors.LossHappens` | scripts/native_capsule_cache.py:450-463 | Answers to every call after which no lease is returned and descriptors stay open. |
| `CacheDescriptors.Body` | scripts/native_capsule_cache.py:412-449 | The guarded part leaves open only the staging descriptor, what the lease owns, and a leaked output file; the lease is built exactly when every call works. |
| `CacheDescriptors.Lease.Close` | scripts/native_capsule_cache.py:72-77 | Closing releases everything and leaves nothing to own, so a second close changes nothing. |
| `Ustar.ArchiveRoundTrip` | scripts/build_macos_native_capsule.py:595-641 | For any ordered records with splittable names within the reader's size limit, the strict reader returns exactly their names, modes and contents in order, with a clean end. |
| `Ustar.HeaderRoundTrip` | scripts/build_macos_native_capsule.py:582-592 | Reading a written header gives back its name, mode and size: octal fields, checksum and the name split included. |
| `Ustar.SizeAsComputed` | scripts/build_macos_native_capsule.py:758-760 | The length of the stream is the precomputed size. |
| `Ustar.WholeBlocks` | scripts/build_macos_native_capsule.py:758-760 | The precomputed size is a whole number of blocks. |
| `Ustar.StreamArchive` | scripts/build_macos_native_capsule.py:595-641 | The writing loop succeeds exactly when every source still matches its record, every name can be written and the computed size fits; it then writes the archive, of that size. |
| `Ustar.EmitMember` | scripts/build_macos_native_capsule.py:613-637 | One member is written in full, or the writer stops. |
| `Ustar.PhysicalMembers` | scripts/macos_capsule_candidate.py:94-112 | The reading loop returns what the recursive reader returns, and says whether it ended cleanly; which blocks that takes for headers is `UstarHeaders.HeaderExactly`. |
| `Ustar.NothingHidden` | scripts/macos_capsule_candidate.py:94-112 | An archive that reads cleanly is nothing but the headers, contents, zero padding and end marker of the members returned, each header being one that `UstarHeaders.HeaderExactly` admits. |
| `UstarHeaders.LayoutReads` | scripts/macos_capsule_candidate.py:94-112 | And everything that is so laid out is read to the end, as exactly these members. |
| `UstarHeaders.HeaderExactly` | scripts/macos_capsule_candidate.py:44-91 | The reader takes a block for a header exactly when its magic, padding, text and number fields are well formed, its written sum is that of its bytes as unsigned or signed ones, it is an ordinary file or a directory of no size within the limit, and its name fields spell a canonical path; it then says what those fields hold, directories included. |
| `UstarHeaders.OneByteRefused` | scripts/macos_capsule_candidate.py:75-91 | A header that is accepted is refused once any one byte outside the checksum field is changed. |
| `UstarHeaders.NumberExactly` | scripts/macos_capsule_candidate.py:67-72 | The reader's numbers are exactly those of fields with spaces, octal digits, and then spaces and NULs only. |
| `UstarHeaders.WrittenIsNormal` | scripts/build_macos_native_capsule.py:582-592 | A written header is that of an ordinary file without owner and time: all its fields but name, mode, size and checksum are the same whatever it is written from. |
| `UstarHeaders.SplitExactly` | scripts/build_macos_native_capsule.py:582-592 | A path of more than 100 bytes is split at the first slash that leaves a prefix and a name that fit, and refused exactly when there is none. |
| `Ustar.ChecksumReads` | scripts/macos_capsule_candidate.py:75-84 | The written checksum is the one the reader computes. |
| `Ustar.SplitJoins` | scripts/macos_capsule_candidate.py:59-64 | The name and prefix of a written header are canonical, fit their fields and join to the name. |
| `Ustar.SafeNamesPortable` | scripts/build_macos_native_capsule.py:125-137 | A safe name can be written exactly when it fits the name field or has a slash that splits it into a prefix and a name that fit. |
| `Ustar.MemberReads` | scripts/macos_capsule_candidate.py:99-111 | Reading goes on correctly behind a written member, whatever follows. |
| `UstarFields.NumberFieldReads` | scripts/macos_capsule_candidate.py:67-72 | A written octal field is accepted and reads back as its number. |
| `UstarFields.TextFieldReads` | scripts/macos_capsule_candidate.py:51-56 | A padded text field reads back as its text. |
| `UstarFields.CanonicalSplit` | scripts/macos_capsule_candidate.py:44-48 | Both sides of a slash in a canonical path are canonical. |
| `UstarTree.Collect` | scripts/macos_capsule_candidate.py:115-133 | The collecting loop succeeds exactly on a clean archive of canonical, distinct paths within the member and byte limits, and then holds each member under its path and nothing else. |
| `UstarTree.RecordsRecovered` | scripts/macos_capsule_candidate.py:115-133 | An archive the writer made is collected exactly when its names are distinct and the limits are kept; what is collected is exactly the records, with their contents and modes. |
| `Search.SearchStream` | scripts/build_macos_native_capsule.py:452-462 | For any short reads the loop succeeds exactly when the needle occurs in the bytes read, matches across several chunks included. |
| `Search.OverlapSuffices` | scripts/build_macos_native_capsule.py:459-461 | Keeping as many bytes as the needle has loses no match. |
| `Closure.Resolver.ResolveClosure` | scripts/native_runtime_inventory.py:286-325 | The walk terminates, and succeeds exactly when everything met on the unlimited walk resolves and that walk stays within 8192 visits, 8192 rows and chains of 128; it then is that walk. On success every image is reached, every target is a system path or an inventoried dylib, every executable's context holds rows for all its loads and those of every target. Each row was resolved with its loader's run paths followed by those inherited along the chain. |
| `Closure.Resolver.Visit` | scripts/native_runtime_inventory.py:291-317 | A visit finishes its image in this context; what is left unfinished are only the images open in the chain above. The images not in the chain decrease. It succeeds exactly when its part of the unlimited walk resolves and fits the limits that are left. |
| `Closure.Resolver.Follow` | scripts/native_runtime_inventory.py:302-317 | One load is resolved, recorded and, if inventoried, visited; it fails exactly when it does not resolve or a limit is passed. |
| `Closure.ClosureIsTransitive` | scripts/native_runtime_inventory.py:286-325 | Whatever an image pulls in over any number of loads has all of its own loads resolved in the same context. |
| `ClosureLoads.ResolvedRight` | scripts/native_runtime_inventory.py:267-283 | A resolved load is a system path, or a dylib that is present and inventoried, and it is the file its name stands for in its loader, executable and run paths. |
| `ClosureLoads.ExpandsExactly` | scripts/native_runtime_inventory.py:246-256 | A value stands for the path behind it below the directory of the loader or of the executable, by the token it begins with, or for itself; the code finds exactly that, and fails exactly when there is none inside the payload. |
| `ClosureLoads.ContextMatters` | scripts/native_runtime_inventory.py:246-256 | A value below the executable stands for the same file in all loaders, one below the loader for all executables, any other always. |
| `ClosureLoads.ResolvesExactly` | scripts/native_runtime_inventory.py:267-283 | A load resolves exactly to what its name stands for: of its candidates, in the order of the run paths, the first that is a system path or exists, which must then be inventoried. |
| `ClosureLoads.RowStandsFor` | scripts/native_runtime_inventory.py:286-325 | Each row of a finished walk points at what its load stands for, under its loader's own run paths followed by those of the row through which the loader was reached. |
| `ClosureWalk.FailsExactly` | scripts/native_runtime_inventory.py:286-325 | The unlimited walk from an image fails exactly when a chain of different images, each loading the next, leads to one whose run paths do not resolve there or that has a load which does not. |
| `Bundle.CreatedVerifies` | scripts/macos_managed_boundary/project_acquisition.py:305-405 | Every bundle that is created is accepted under a matching signer, and declares one entry for each ordinary archive member and one record for each artifact, and nothing else. |
| `Bundle.AcceptedIsExact` | scripts/macos_managed_boundary/project_acquisition.py:429-495 | An accepted bundle is exactly what its descriptor declares: no source file, wheel, archive or lock byte or mode differs, is missing or is added. |
| `Bundle.AcceptedExactly` | scripts/macos_managed_boundary/project_acquisition.py:429-495 | A bundle is accepted exactly when it is within its size, carries its signed descriptor and marker under its own identity, and holds exactly what that declares. |
| `Bundle.InventorySource` | scripts/macos_managed_boundary/project_acquisition.py:408-426 | The walk below the source directory, in any order, raises exactly on a missing source, a link or a special file, and otherwise lists exactly the files. |
| `Bundle.IdentityBinds` | scripts/macos_managed_boundary/project_acquisition.py:446-451 | Two accepted bundles with the same content identity have the same signed body, and agree on the bytes and modes of every source file and wheel, on the archive and on the lock. |
| `Bundle.VerifyBundle` | scripts/macos_managed_boundary/project_acquisition.py:429-495 | The verification as it runs, in its order and with its loops, equals its specification; what it accepts is exactly what the descriptor declares. |
| `Bundle.CheckBundleSize` | scripts/macos_managed_boundary/project_acquisition.py:56-66 | Visiting the files in any order, the running check accepts exactly trees of directories and ordinary files within the limit. |
| `Bundle.TotalWithout` | scripts/macos_managed_boundary/project_acquisition.py:56-66 | The total does not depend on the order of the walk. |
| `Bundle.VerifyArtifacts` | scripts/macos_managed_boundary/project_acquisition.py:463-474 | The loop accepts exactly records with distinct names and right files, and has then seen all their names. |
| `Bundle.WheelhouseSame` | scripts/macos_managed_boundary/project_acquisition.py:475-485 | Comparing the names found with the names seen is the same as an exact wheelhouse. |
| `Bundle.ExtractSource` | scripts/macos_managed_boundary/project_acquisition.py:125-188 | The extraction loop equals its value form, which `BundleCreate.ExtractExactly` is about. |
| `Bundle.ExtractKeeps` | scripts/macos_managed_boundary/project_acquisition.py:125-188 | Extraction writes below the source directory only, and its inventory is that of the files written. |
| `Bundle.ExtractContents` | scripts/macos_managed_boundary/project_acquisition.py:125-188 | When an archive is extracted, the inventory has one entry for each ordinary member, of its bytes and normalised mode, and no other; when it is, says `BundleCreate.ExtractExactly`. |
| `BundleCreate.ExtractExactly` | scripts/macos_managed_boundary/project_acquisition.py:125-188 | An archive is extracted exactly when no member below the root is special, its files have no more bytes than allowed, and none of them is at or above the place of another member, in whatever order they come; the tree then holds the files with their bytes and modes, the directories they need, and nothing else. |
| `BundleCreate.CopyExactly` | scripts/macos_managed_boundary/project_acquisition.py:341-357 | The artifacts are copied exactly when their names differ and they have no more bytes than allowed. |
| `BundleCreate.CreatesExactly` | scripts/macos_managed_boundary/project_acquisition.py:305-405 | A bundle is created exactly when its archive is extractable and has a file, its artifacts can be copied, their numbers are within the limits, and so are the bytes of everything together, with lock, descriptor and marker. |
| `BundleCreate.CreatedHolds` | scripts/macos_managed_boundary/project_acquisition.py:305-405 | A created bundle holds the archive, the signed descriptor, the marker and a lock of all records, all private; the extracted source; and the given artifacts as its wheels, each with its own bytes. |
| `Bundle.CopyWheels` | scripts/macos_managed_boundary/project_acquisition.py:341-357 | The copying loop equals its specification. |
| `Bundle.CopyKeeps` | scripts/macos_managed_boundary/project_acquisition.py:341-357 | The copied files are exactly the recorded ones, under distinct names. |
| `Bundle.SortKeeps` | scripts/macos_managed_boundary/project_acquisition.py:358-358 | Sorting the records keeps them the same records with distinct names. |
| `BundleInstall.RunSafety` | scripts/macos_managed_boundary/project_acquisition.py:498-518 | Whatever the cache held at the start, under any interleaving of installers, exceptions, crashes and changes to the staged trees: no entry is ever replaced, changed or removed, every entry that is added is accepted, and every returned destination is an accepted entry that is there. |
| `BundleInstall.UnacceptableStays` | scripts/macos_managed_boundary/project_acquisition.py:505-507 | An entry that was there and is not acceptable stays as it is, and no installer ever returns it. |
| `BundleInstall.StepInv` | scripts/macos_managed_boundary/project_acquisition.py:498-518 | Every step of every installer keeps the invariant, against what the cache held at the start, and every entry. |
| `BundleInstall.StepFrame` | scripts/macos_managed_boundary/project_acquisition.py:507-517 | A step leaves alone every entry and every temporary of another process; a rename never finds a target it could replace. |
| `BundleInstall.RunFilesExactly` | scripts/macos_managed_boundary/project_acquisition.py:498-518 | Over every run, from any cache: an entry that was added is filed under its own identity exactly when the descriptor the last copy put into its temporary has the body of the one verified in the staged tree before. |
| `BundleInstall.SteadyRunFiles` | scripts/macos_managed_boundary/project_acquisition.py:498-518 | If no staged descriptor changes after its verification, every entry that is added is filed under its own identity, over every run from any cache. |
| `BundleInstall.SwapMisfiles` | scripts/macos_managed_boundary/project_acquisition.py:498-518 | Any two acceptable bundles with different identities can be swapped between verification and copy so that one is published under the other's identity. |
| `BundleInstall.MisfilingHappens` | scripts/macos_managed_boundary/project_acquisition.py:498-518 | A concrete pair of bundles for which that happens. |
| `BundleInstall.OpenStays` | scripts/macos_managed_boundary/project_acquisition.py:521-531 | In any cache, opening an identity returns an entry exactly when it is there, accepted and under its own identity, and the same in every later state. |
| `BundleInstall.MisfiledForever` | scripts/macos_managed_boundary/project_acquisition.py:521-531 | A misfiled entry can never be opened, while an installer that finds it can return it exactly when it is accepted, as every added one is. |
| `BundleProgress.ReturnsExactly` | scripts/macos_managed_boundary/project_acquisition.py:498-518 | In every state of every run, an installer that has just begun can, left alone, return a destination exactly when its staged tree is acceptable and so is the destination if there is one. |
| `BundleProgress.Installs` | scripts/macos_managed_boundary/project_acquisition.py:498-518 | Without a destination it gets to a state in which its staged tree is the entry, whatever leftover temporary it finds. |
| `BundleProgress.InstalledDone` | scripts/macos_managed_boundary/project_acquisition.py:498-531 | That entry is filed and opens under its identity, and all other entries are as they were. |
| `Replay.ReplayFollows` | scripts/macos_managed_boundary/python_analyzer_worker.py:91-100 | With honest replies to the first requests of the direct run, the worker stops at the next request of the direct run; with all of them it ends as the direct run does. |
| `Replay.CompleteIsDirect` | scripts/macos_managed_boundary/python_analyzer_worker.py:88-100 | A worker that completes having made exactly the recorded requests reports what the direct run reports. |
| `Replay.DifferingReplyUnused` | scripts/macos_managed_boundary/python_analyzer_worker.py:96-97 | A reply recorded for another request is rejected: its response has no influence on the worker. |
| `Replay.HaltedLast` | scripts/macos_managed_boundary/python_analyzers.py:738-756 | The direct run stops early at the one request that cannot be executed, and only there. |
| `Replay.WorkerProcess.Transport` | scripts/macos_managed_boundary/python_analyzer_worker.py:91-100 | The request is recorded; it gets the outcome of its reply, a mismatch error, or is left pending. |
| `Replay.WorkerProcess.Work` | scripts/macos_managed_boundary/python_analyzer_worker.py:151-196 | The worker's exit status, result file and pending file are those of the specification. |
| `Replay.Drive` | scripts/macos_managed_boundary/python_analyzers.py:700-769 | The driver completes exactly when the direct run finishes with fewer than eight requests, with its findings and requests, after one more run than there are requests. |
| `Replay.DriveAsking` | scripts/macos_managed_boundary/python_analyzers.py:709-765 | An adapter that makes the same answered request `n` times completes exactly when `n` is below eight; with more, eight runs are made in vain. |
| `Replay.AskingDirect` | scripts/macos_managed_boundary/python_analyzers.py:709-765 | The direct run of that adapter finishes with exactly `n` requests. |
| `Replay.SampleAsks` | scripts/macos_managed_boundary/python_analyzers.py:709-765 | There is such a call that is not refused: with eight of it the direct run finishes. |
| `Replay.OutcomeExactly` | scripts/macos_managed_boundary/managed_subprocess.py:67-80 | A usable response comes back with its code and each of its streams, raised as a failure exactly when the caller asked for that and the code is not zero; any other response is an error. |
| `Replay.AdmitsExactly` | scripts/macos_managed_boundary/managed_subprocess.py:42-66 | Exactly which calls reach the transport, and that the request is for the bound tool with the call's own arguments. |
| `Replay.DirectIsCalls` | scripts/macos_managed_boundary/python_analyzer_worker.py:111-119 | The direct run is the adapter's calls one after the other, each refused or made as the next request and answered, up to the adapter's end or a request that is not answered. |
| `DiffGate.ParseInvertsRender` | scripts/pre_commit_code_review.py:295-330 | For every valid zero-context diff, whatever its texts hold (further line separators included, if what follows them is harmless), the parser maps each unquoted destination to exactly its added lines, and gives up exactly when a destination is quoted. |
| `DiffGate.ParseDiff` | scripts/pre_commit_code_review.py:295-330 | The parsing loop equals the recursive parser. |
| `DiffGate.ParseFile` | scripts/pre_commit_code_review.py:302-316 | The header of one file, whatever its extended lines, moves the parser to that file; its hunks add their lines. |
| `DiffGate.BodyQuiet` | scripts/pre_commit_code_review.py:317-318 | A removed or added text that looks like any header is none to the parser. |
| `DiffGate.HeaderRange` | scripts/pre_commit_code_review.py:323-327 | The range found in a hunk header is its new range, whatever the section heading holds. |
| `DiffGate.SplitRendered` | scripts/pre_commit_code_review.py:301-301 | Lines are split one by one, whatever their ends: none is joined to the next. |
| `DiffGate.HarmlessExactly` | scripts/pre_commit_code_review.py:302-329 | Inside the hunks of a file, a line leaves every parse alone exactly when it begins no file header, and no hunk header but one of an empty range. |
| `DiffGate.DiffAgrees` | scripts/pre_commit_code_review.py:301-330 | In a valid diff the pieces of every line, split at further separators, take the parser where the line takes it. |
| `DiffGate.FormFeedMisleads` | scripts/pre_commit_code_review.py:301-330 | An added text with a form feed followed by the text of a hunk header marks that hunk's lines as added, though the diff adds only one. |
| `DiffSeparators.ParseExact` | scripts/pre_commit_code_review.py:295-330 | For every diff in which nothing that begins like a destination follows a stray file header in the hunks of a file: the parser gives up exactly when a destination is quoted, a hunk header follows a stray file header, or a stray hunk header of a tracked file has no range; otherwise each destination gets its added lines and the stray ranges, and nothing else. |
| `DiffSeparators.RightExactly` | scripts/pre_commit_code_review.py:295-330 | So the parser is right exactly when a destination is quoted, or no hunk header follows a stray file header and each stray hunk header has a range that lies among the added lines of its file. |
| `DiffSeparators.FilePieces` | scripts/pre_commit_code_review.py:301-329 | One file, its stray pieces included, moves the parser past its header and adds its lines and theirs. |
| `DiffSeparators.FileResult` | scripts/pre_commit_code_review.py:301-329 | The map after one file, with stray file headers among its pieces too. |
| `DiffSeparators.FileHeaderMisleads` | scripts/pre_commit_code_review.py:302-321 | An added text with a form feed followed by the text of a file header makes the parser give up at the next hunk of that file, though its destination is not quoted. |
| `DiffSeparators.StrayTargetMisleads` | scripts/pre_commit_code_review.py:302-321 | With a destination behind the stray file header, the lines of the next hunk are reported for that destination; the parser is right exactly when it is the file's own. |
| `DiffSeparators.StrayGateExact` | scripts/pre_commit_code_review.py:430-453 | The gate's exact condition holds for all diffs on which the parser is right by that condition. |
| `DiffMeaning.TextExact` | scripts/pre_commit_code_review.py:295-330 | For every text whatever: the parse gives up exactly when a destination is quoted or a hunk header has no destination in force, or lacks a range its destination needs; otherwise it knows exactly the destinations, and counts for each exactly the ranges of the hunk headers at which it is in force. |
| `DiffMeaning.OneInForce` | scripts/pre_commit_code_review.py:302-316 | At most one destination is in force at a line. |
| `DiffMeaning.RightOnAny` | scripts/pre_commit_code_review.py:295-330 | So on every diff, whatever its lines hold, the parser is right exactly when the lines as they are split say what the diff says. |
| `DiffGate.GateExact` | scripts/pre_commit_code_review.py:430-453 | In changed-line mode the gate blocks exactly when an error that cannot be fixed automatically is on an added line or is for the whole of a file with added lines; without evidence, any such error or a failed review blocks. |
| `DiffGate.EnforcementExact` | scripts/pre_commit_code_review.py:359-453 | Full enforcement gives the code of the review, shadow gives 0, and the changed-line mode 1 exactly for an error that is not fixable and touches added lines, or, where these are not known, for any such error or a failed review. |
| `DiffGate.ExpectedExact` | scripts/pre_commit_code_review.py:328-330 | The resulting map holds the union of the added ranges of each destination, in whatever order the files come. |
| `Record.CorrectedMembers` | scripts/native_z3_wheel.py:162-191 | The rewrite succeeds exactly when the upstream checks pass; then no member is lost or invented, only the three metadata files change, and the new RECORD verifies. |
| `Record.RewrittenVerifies` | scripts/native_z3_wheel.py:183-190 | The regenerated RECORD always passes the verification, in whatever order the members are listed and whatever their names need quoting for. |
| `Record.ReadInvertsWrite` | scripts/native_z3_wheel.py:184-189 | Rows of at least two fields read back strictly as they were written, quotes, commas and newlines included. |
| `Record.StrayRefused` | scripts/native_z3_wheel.py:142-148 | The strict reader refuses anything behind a closing quote but a comma, a line end or another quote. |
| `Record.OpenRefused` | scripts/native_z3_wheel.py:142-148 | It refuses a quote that is never closed. |
| `Record.VerifyRecord` | scripts/native_z3_wheel.py:142-159 | The verification loop accepts exactly one right row for every file and no other. |
| `Record.RenameInjective` | scripts/native_z3_wheel.py:167-176 | No two members get the same name. |
| `Record.RenameExactly` | scripts/native_z3_wheel.py:167-176 | Members of the upstream metadata directory keep their place in the downstream one, all others keep their names. |
| `Record.DownstreamHas` | scripts/native_z3_wheel.py:167-168 | Every downstream metadata name would have been refused upstream. |
| `HierarchyCache.FetchOrderIrrelevant` | scripts/sync_github_hierarchy_cache.py:422-491 | With distinct numbers neither the fingerprint, nor the rendering, nor whether a sync finds anything to change depends on the order in which the issues and each issue's sub-issues were fetched. |
| `HierarchyCache.FetchIssues` | scripts/sync_github_hierarchy_cache.py:422-459 | The fetching loop over pages and nodes gives one issue for each node of a supported type, in order. |
| `HierarchyCache.ChildrenIgnoreOrder` | scripts/sync_github_hierarchy_cache.py:227-235 | Sub-issues with distinct numbers give the same list of children in whatever order they are fetched. |
| `HierarchyCache.ChildrenSameExactly` | scripts/sync_github_hierarchy_cache.py:227-235 | Two fetches give the same list of children exactly when sub-issues with equal numbers come in the same order in both. |
| `HierarchyCache.LabelsSameExactly` | scripts/sync_github_hierarchy_cache.py:207-214 | Two fetches give the same labels exactly when labels that are ranked equal come in the same order in both. |
| `HierarchyOrder.TiedChildren` | scripts/sync_github_hierarchy_cache.py:464-562 | Sub-issues fetched in another order, equal numbers included, never change the fingerprint, and leave the whole rendering the same exactly when each issue's line of children reads the same. |
| `HierarchyOrder.TiedVerdict` | scripts/sync_github_hierarchy_cache.py:593-620 | After a sync that wrote the file, a fetch with sub-issues in another order is found in agreement with it under the same condition. |
| `HierarchyOrder.TiesRead` | scripts/sync_github_hierarchy_cache.py:227-235 | Two sub-issues of the same number, fetched in either order, give lines of children that read differently. |
| `HierarchyOrder.TiesRewrite` | scripts/sync_github_hierarchy_cache.py:661-727 | Two syncs that fetch them in either order: the fingerprint is the same, the renderings differ, and the second sync rewrites the file. |
| `HierarchyCache.MatchesExact` | scripts/sync_github_hierarchy_cache.py:593-620 | The file is left alone exactly when it has one well-ended timestamp line and is otherwise the current rendering without its own. |
| `HierarchyCache.UnchangedIsRendering` | scripts/sync_github_hierarchy_cache.py:593-620 | A file that is left alone equals the current rendering except for its timestamp line. |
| `HierarchyCache.OwnRenderingMatches` | scripts/sync_github_hierarchy_cache.py:593-620 | What was rendered, at whatever time, is found unchanged, for fields without line breaks. |
| `HierarchyCache.RenderParts` | scripts/sync_github_hierarchy_cache.py:534-562 | The rendering is a head, its timestamp line and a tail that does not depend on the timestamp, after the final stripping too. |
| `HierarchyCache.RemoveStamp` | scripts/sync_github_hierarchy_cache.py:618-618 | Removing the first occurrence of the timestamp line removes just that line's text, even if the repository's name ends like it. |
| `HierarchyCache.BodyQuiet` | scripts/sync_github_hierarchy_cache.py:494-557 | No other line of a rendering looks like the timestamp. |
| `HierarchySections.RendersSections` | scripts/sync_github_hierarchy_cache.py:494-562 | A rendering is nine lines, the section of the Epics and that of the Features, and no more: each issue's block of seven lines stands in the section of its kind as often as the issue is given, by number, with its own fields. |
| `HierarchySections.IssueTakes` | scripts/sync_github_hierarchy_cache.py:207-262 | An issue takes its fields from the fetched node; its children are the sub-issues that count, by number, its labels the names that are not empty, each as often as it is given. |
| `HierarchySections.FingerprintTells` | scripts/sync_github_hierarchy_cache.py:464-488 | With an ideal digest, issues with equal fingerprints can be paired so that each two agree on number, title, address, kind, labels, summary, parent and children. |
| `HierarchyCache.Cache.Sync` | scripts/sync_github_hierarchy_cache.py:661-727 | A sync reports a change exactly when it is forced or the saved state or file disagrees with what was fetched; it writes the current rendering then, and nothing otherwise, and leaves both in agreement for fields without line breaks. |
| `HierarchyCache.Cache.SyncTwice` | scripts/sync_github_hierarchy_cache.py:661-727 | A second sync that fetches the same with distinct numbers, issues and sub-issues in any order, reports unchanged and leaves the file alone. |
| `Sorting.SortIgnoresOrder` | scripts/sync_github_hierarchy_cache.py:467-467 | A list without equally ranked members sorts the same in whatever order it comes. |
| `Sorting.SortSameExactly` | scripts/sync_github_hierarchy_cache.py:227-235 | Two lists sort the same exactly when members ranked equal come in the same order in both. |
## Left out

- The Mach exception build of the broker: `control_mach.inc` is not part of this model; the BSD test build is.
- The effects of `ptrace`, the sandbox, code signature checks and diagnostics printing: each is one answer of the environment.
- The signals the broker sends: whether a `kill` works is an answer of the environment, the signal's number is not part of it.
- Floating-point time in the broker, its `select` timeout conversion and calls interrupted by signals, which count as "try again".
- Broker.Broker.Drain: a worker launched in the same turn may already be found readable, which the source's descriptor set
  excludes; the model allows more runs than the source has.
- The authentication of manifests, key parsing and the download stream of the cache: the signed document is given.
- CacheProtocol.StepInv: staging trees are flat maps from paths, and one file's content appears in parts of any kind before
  its final value; nested directory descriptors are in `CacheDescriptors.dfy` only.
- CacheDescriptors.Acquire: assumes, as the source does, that `close` does not fail.
- Durability: `fsync` has no effect in any model.
- Python's `tarfile` beyond the header format it writes and the fields the strict reader hands to it; modes above the twelve
  permission bits, which `tarfile` cuts off in the written header.
- The closure normalisation of the builder and the OCI metadata checks: field-by-field checks that would only add easy members.
- Bundle.CreatedVerifies: admission of requests, artifacts and fetch evidence, and the removal of a common archive root, are
  behind it; the model starts from admitted artifacts and stripped member paths.
- BundleInstall.RunSafety: a verification is one step. The destination never changes once it is there and a temporary is written
  by its owner only, so this is exact for them; of a staged tree that changes while it is verified it says nothing.
- Replay.Drive: an adapter makes a bounded number of calls whatever their outcomes; admission of the tool request, the tool's
  broker bound and the Semgrep bootstrap check are one answer, "stopped"; the broker's verification of the worker itself succeeds.
- DiffGate.ParseInvertsRender: header lines of a file have no further separators, which git quotes in names, and what follows
  one in a text is harmless; all other texts are in `DiffMeaning.TextExact`.
- DiffSeparators.ParseExact: the same of header lines, and nothing like a destination follows a stray file header.
- DiffGate.ParseDiff: decimal digits are the ASCII ones; the source's pattern also takes those of other scripts.
- Git's quoting of unusual names: a quoted destination is any text in quotes, on which the parser gives up.
- Record.CorrectedMembers: member names have no carriage return, which the ZIP reader already refuses; the texts of the two
  replaced metadata files are parameters, and ZIP reading and writing are not modelled.
- HierarchyCache.Cache.Sync: the file is the text `read_text` gives; the queries behind a fetched page, and moving a non-regular
  file aside, are outside.
- The report loader, registries, receipts and command checkers: fixed-table checks or plumbing around
  network clients.
