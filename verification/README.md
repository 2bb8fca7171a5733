# Portwyrm, modelled and verified

Portwyrm is a control plane for Nginx with a QUIC passthrough router beside it.
These files model the parts of it where a mistake is hardest to see, in Dafny,
and prove what they promise. `dafny verify dfyconfig.toml` checks the whole.

- **The QUIC router.** From the bytes up: varints, CRYPTO frames, reassembly
  and the ClientHello parser (`QuicVarint`, `CryptoFrames`, `ClientHello`,
  `ConnectionIds`), each with an encoder it is proved to invert. `RouterModel`
  is the router as a state machine without indexes, `RouterRuns` and
  `RouterHistory` prove what holds over whole runs of it, and `QuicRouter` is
  the router's class with its dictionaries, sets and counters, proved to move as
  the machine does through `SessionIndex` and `PendingMaps`.
- **The route document** (`QuicRoutes`): rendered by the controller, read back
  by the router.
- **The configuration diff** (`ConfigDiff`, `SideBySide`): the table filled in
  place, the walk through it, its optimality, and the two columns shown.
- **Reconciliation** (`Generations`, `Reconciliation`, `Leases`,
  `RuntimeTables`, `RuntimeController`, `OverlappingReconciles`):
  content-addressed generations, the ACTIVE manifest and the published link,
  rollback, timed leases, and the database that mirrors the manifest until a
  lease runs out under a reconcile.
- **Certificates** (`CertificateMaterial`, `CertificateManager`): material on
  disk and metadata in a table changed together, with compensation.
- **Import and routing checks** (`NpmPreflight`, `PreflightOutcome`,
  `RoutingClaims`, `StreamRoutes`).

What the environment does is a parameter: the outcome of decrypting a datagram,
of an `await`, of a validator or reloader, or the step of an operation that
fails; the clock; the digest; the patterns for domain names and targets; fresh
random suffixes. `Text`, `Sorting`, `StringOrder`, `ByteStrings`, `Visits` and
`Wrappers` hold what several of the others use.

Some natural expectations do not hold of the code, and the exact conditions under
which they do are proved instead: reassembled bytes can shrink
(`ShorterFragmentShrinksThePrefix`, `AssembledGrowsExactly`); a staged directory
need not hold every file given when two names lead to one path (`OnePathTwoNames`,
`BuiltExactly`); two sets of files with a NUL in them can have one digest input
(`NulConfuses`, `FramingReadsBack`); the published link can stay on a rejected
generation (`FirstFailureLeavesCandidate`, `InStepUnlessCandidateLeft`); the
table can cease to mirror the manifest when a reconcile outstays its lease
(`OvertakenBreaks`, `OvertakenExactly`, `MirrorsExactly`); and replaced material
can be new while `put` reports failure (`PutIsAllOrNothing`, `UploadAgain`).

## Model

| member | source | states |
|---|---|---|
| QuicVarint.ReadVarint | src/portwyrm/runtime/quic_router.py:43-52 | the loop reads the big-endian value below the two length bits and the offset after it, or reports a truncated varint; equal to the recursive reading Varint |
| QuicVarint.VarintRoundTrip | src/portwyrm/runtime/quic_router.py:43-52 | the values that have an encoding are exactly those below 2^62 (section 16 of RFC 9000), and every encoding of one, at every width that fits, is read back with the offset just after it, wherever it stands |
| QuicVarint.VarintReadsAnEncoding | src/portwyrm/runtime/quic_router.py:43-52 | conversely, whatever is read without error is the encoding of the value returned |
| QuicVarint.KnownVarints | src/portwyrm/runtime/quic_router.py:43-52 | the short examples of section A.1 of RFC 9000 are read as it says |
| QuicVarint.KnownLongVarint | src/portwyrm/runtime/quic_router.py:43-52 | so is its eight-byte example |
| CryptoFrames.CryptoFragments | src/portwyrm/runtime/quic_router.py:147-163 | the frame loop returns the fragments that the recursive reader returns, a later frame replacing one at the same offset; the strictly advancing offset is its termination |
| CryptoFrames.FramesRoundTrip | src/portwyrm/runtime/quic_router.py:147-163 | reading inverts the encoder of PADDING, PING and CRYPTO frames (sections 19.1, 19.2 and 19.6 of RFC 9000) for any frames at any varint widths, up to the first frame of another kind |
| CryptoFrames.FramesReadExactly | src/portwyrm/runtime/quic_router.py:147-163 | a plaintext is read without error if and only if it is encoded PADDING, PING and CRYPTO frames up to its end or to a frame of another kind, and what is held is then what those frames leave |
| CryptoFrames.DistinctFramesAllHeld | src/portwyrm/runtime/quic_router.py:147-163 | with distinct offsets the packet yields exactly its CRYPTO frames and leaves every other held fragment alone |
| CryptoFrames.AssembleCrypto | src/portwyrm/runtime/quic_router.py:166-174 | the loop over sorted offsets, stopping at the first gap and appending what is new of each fragment, is the recursive assembly |
| CryptoFrames.AssembledExactly | src/portwyrm/runtime/quic_router.py:166-174 | of any fragments, consistent or not, the bytes up to the first position that none carries are assembled, each from the fragment that starts first of those that carry it |
| CryptoFrames.AssembledIsMaximalPrefix | src/portwyrm/runtime/quic_router.py:166-174 | if the fragments are slices of one stream, in any order and overlapping in any way, the assembled bytes are exactly the longest prefix of the stream that they cover |
| CryptoFrames.AssembledDependsOnlyOnCoverage | src/portwyrm/runtime/quic_router.py:166-174 | two sets of slices that cover the same positions assemble to the same bytes |
| CryptoFrames.SlicesAccumulate | src/portwyrm/runtime/quic_router.py:543-545 | merging another packet of slices keeps slices, so the theorem holds after every arrival |
| CryptoFrames.AssembledGrows | src/portwyrm/runtime/quic_router.py:543-545 | if no held fragment is replaced by a shorter one, the assembled prefix only grows |
| CryptoFrames.AssembledGrowsExactly | src/portwyrm/runtime/quic_router.py:543-545 | the assembled prefix only grows if and only if every byte in use that a shorter replacement drops is carried by some other fragment |
| CryptoFrames.ShorterFragmentShrinksThePrefix | src/portwyrm/runtime/quic_router.py:543-545 | the prefix does not always grow: a shorter fragment at the same offset shrinks it |
| ClientHello.ParseClientHello | src/portwyrm/runtime/quic_router.py:177-213 | the parser with its walk over extensions equals the recursive specification on every input, errors and out-of-range reads included |
| ClientHello.WalkExtensions | src/portwyrm/runtime/quic_router.py:196-210 | the extension loop, which applies each extension to what has been found, equals its recursive specification |
| ClientHello.ApplyExtension | src/portwyrm/runtime/quic_router.py:201-210 | one extension: the server name is decoded, case-folded and stripped of trailing dots; protocols are appended; all others are ignored |
| ClientHello.ParseAlpnList | src/portwyrm/runtime/quic_router.py:204-210 | the protocol loop equals its recursive specification, including items cut short by the end |
| ClientHello.ClientHelloRoundTrip | src/portwyrm/runtime/quic_router.py:177-213 | parsing inverts a ClientHello encoder (section 4.1.2 of RFC 8446) for any session id, cipher list, compression list and list of extensions, ignoring bytes after the message; a message that names no server is refused |
| ClientHello.SaidByOneOfEachKind | src/portwyrm/runtime/quic_router.py:194-213 | with one server_name (section 3 of RFC 6066) and one ALPN extension (section 3.1 of RFC 7301) among any others in any order, the result is that name, canonical, and those protocols |
| ClientHello.EncodedHelloStarts | src/portwyrm/runtime/quic_router.py:177-183 | an encoded message is a whole ClientHello in the sense that the decision theorems use |
| ClientHello.PrefixDecision | src/portwyrm/runtime/quic_router.py:178-183 | every strict prefix of a ClientHello is rejected, and every longer prefix gives the verdict of the whole message |
| ClientHello.ParsedHelloStarts | src/portwyrm/runtime/quic_router.py:178-183 | nothing is parsed but a whole ClientHello with a server name |
| ClientHello.FoldExactly | src/portwyrm/runtime/quic_router.py:203 | names have one fold exactly when they differ in the case of letters only, and a fold has no capital |
| ClientHello.CanonicalExactly | src/portwyrm/runtime/quic_router.py:203 | the canonical name is the fold of what stands before the closing dots |
| ConnectionIds.ConnectionIdsExact | src/portwyrm/runtime/quic_router.py:128-144 | connection IDs are read from a datagram if and only if it is a long header that carries them in full |
| RouterModel.StepKeepsInv | src/portwyrm/runtime/quic_router.py:499-631 | every step of the router keeps: one phase for each connection (absent, collecting, opening, open), unique owners of server connection IDs, at most 2048 pending and 1 to 8 queued each, the listener paused exactly while a session that has heard nothing is awaited, and nobody left collecting whose bytes already parse |
| RouterModel.RunKeepsInv | src/portwyrm/runtime/quic_router.py:275-631 | in every interleaving of datagrams, opens, timers, reaping and reloads, from the start, that invariant holds |
| RouterRuns.ShortHeaderExact | src/portwyrm/runtime/quic_router.py:472-480 | a short-header datagram belongs to the session of its own address owning the longest server connection ID that starts its tail, else to the address's only session, else to none, and the choice is unique |
| RouterRuns.LongHeaderExact | src/portwyrm/runtime/quic_router.py:450-471 | a long header belongs to the session of its own address that owns its destination ID, else to the one that its first datagram opened, else to none |
| RouterRuns.SessionForOwnClient | src/portwyrm/runtime/quic_router.py:450-480 | no datagram is ever given to a session of another client address |
| RouterRuns.StepMoves | src/portwyrm/runtime/quic_router.py:499-631 | seen from one connection, every step is a move of its life cycle: its own datagrams alone feed it, each adding what it carries to what is held, and a hello that names a route and offers its protocol opens it; its own open alone ends an opening; the reaper takes exactly what has collected or idled too long, and never an opening one |
| RouterRuns.ForwardingIsFifo | src/portwyrm/runtime/quic_router.py:499-608 | in every run what a connection's upstream got, or will get from the queue, is in arrival order and without repetition the datagrams accepted for it since it began, all from its own client |
| RouterRuns.RepliesReachTheirClient | src/portwyrm/runtime/quic_router.py:250-269 | in every run the replies sent are, in order, the upstream datagrams of sessions that were live, each to its session's client |
| RouterRuns.AwaitedExactly | src/portwyrm/runtime/quic_router.py:362-394 | a connection is awaited from the opening of its session until the first of its first answer, its timer and its removal, and nothing else ever is |
| RouterRuns.TimersResumeReading | src/portwyrm/runtime/quic_router.py:362-399 | from any reachable state, once the outstanding timers have fired in any order nobody is awaited, reading has resumed, and nothing else has changed |
| RouterRuns.DecisionIsExact | src/portwyrm/runtime/quic_router.py:541-549 | slices of one stream make a hello exactly when every byte of the whole hello is among them, in any order, and it parses, and it is then the whole hello |
| RouterRuns.RoutedByWhatItSent | src/portwyrm/runtime/quic_router.py:530-557 | in every run, whatever clients send, a connection that is collecting holds exactly the fragments of all datagrams accepted for it, one that does not decrypt or read adding none, and they make no hello; one that is opening or open was decided by the datagram that completed its hello |
| RouterRuns.RoutedByItsOwnHello | src/portwyrm/runtime/quic_router.py:541-557 | in every run, a connection whose client sends slices of one stream is collecting only while what it has sent does not cover its hello or the hello does not parse; one that is opening or open was decided by the datagram with which every byte of the hello had arrived, for the route the whole hello named in the table of that moment, and has kept that route |
| RouterHistory.RoutesAreTheLastDocument | src/portwyrm/runtime/quic_router.py:482-497 | in every run the table is that of the last document that could be read, and of nothing before it |
| RouterHistory.RoutesTheRenderedTable | src/portwyrm/runtime/quic_router.py:482-497 | after the last reload of a rendered table the router knows exactly the canonical names of enabled rows, each by its greatest row |
| RouterHistory.OwnedIfAnnouncedFirst | src/portwyrm/runtime/quic_router.py:401-440 | in every run a session owns a connection ID if and only if, since it began, its upstream announced it as the source ID of a long header at a moment when no live session owned it |
| RouterHistory.SessionRecord | src/portwyrm/runtime/quic_router.py:250-269 | no event changes whom a session is for; its own datagrams date it, and those of its upstream are counted |
| RouterHistory.SessionBegins | src/portwyrm/runtime/quic_router.py:577-587 | a session begins only when its open succeeds, with the queue, the route and the timeout of that open and with no IDs |
| RouterHistory.SilentForTooLong | src/portwyrm/runtime/quic_router.py:619-631 | in every run a session is dated by the last datagram from either side, or by its opening, and times out as its route says |
| RouterHistory.PendingRecord | src/portwyrm/runtime/quic_router.py:530-557 | a collecting connection keeps when it began and is dated by its last datagram; an open has the source ID of the datagram that decided it, and connects only when its task begins |
| SessionIndex.FirstHitIsLongest | src/portwyrm/runtime/quic_router.py:472-476 | the first hit, trying registered lengths from the longest, is the longest match of a plain scan of the sessions |
| SessionIndex.NoHitIsOnlySession | src/portwyrm/runtime/quic_router.py:478-480 | with no hit at any length the index answers with the address's only session exactly when the scan does |
| SessionIndex.LongHeaderByIndex | src/portwyrm/runtime/quic_router.py:457-470 | asking the index for a long header's destination ID, then for the key itself, is the scan |
| SessionIndex.Registered | src/portwyrm/runtime/quic_router.py:419-440 | registering an ID gives it to the first session that announces it, ignores later claims, and keeps the indexes exact |
| SessionIndex.HistogramUp | src/portwyrm/runtime/quic_router.py:438-440 | counting a new ID keeps the exact number of IDs of each length |
| SessionIndex.HistogramDown | src/portwyrm/runtime/quic_router.py:442-448 | dropping an ID keeps the exact number of IDs of each length, with no entry for an unused length |
| SessionIndex.Descending | src/portwyrm/runtime/quic_router.py:440 | the lengths in use, each once, from the longest |
| SessionIndex.AddrDropped | src/portwyrm/runtime/quic_router.py:349-353 | removing a key keeps the address index exact and leaves no empty set behind |
| SessionIndex.CidDropped | src/portwyrm/runtime/quic_router.py:354-357 | removing the indexed IDs that a session owns keeps the owner index exact |
| RouterRuntime.Session.Forward | src/portwyrm/runtime/quic_router.py:502-507 | a client datagram is appended to what the upstream got and the session is marked seen |
| RouterRuntime.Session.SendAll | src/portwyrm/runtime/quic_router.py:607-608 | the queued datagrams are appended in order |
| RouterRuntime.QuicRouter.constructor | src/portwyrm/runtime/quic_router.py:276-293 | a new router stands for the start of the state machine |
| RouterRuntime.QuicRouter.IndexServerConnectionId | src/portwyrm/runtime/quic_router.py:419-440 | an unowned ID goes to the session, the owner index and the length histogram; an owned one, or a key without a session, changes nothing; lengths stay exact |
| RouterRuntime.QuicRouter.RemoveServerCidLength | src/portwyrm/runtime/quic_router.py:442-448 | the count of a length goes down by one, or away at one |
| RouterRuntime.QuicRouter.RegisterServerConnectionId | src/portwyrm/runtime/quic_router.py:401-417 | the sessions become what the state machine's registration makes of them (see RouterHistory.OwnedIfAnnouncedFirst), or stay as they are if the key has none, and every index agrees with a scan afterwards |
| RouterRuntime.QuicRouter.AddSession | src/portwyrm/runtime/quic_router.py:329-337 | the session is filed under its key, its address and its IDs, and every index agrees with a scan afterwards |
| RouterRuntime.QuicRouter.RemoveSession | src/portwyrm/runtime/quic_router.py:339-360 | the session and its index entries go, its pause ends, its upstream is closed, and every index agrees with a scan afterwards; an absent key changes nothing |
| RouterRuntime.QuicRouter.PauseIngressForFirstUpstream | src/portwyrm/runtime/quic_router.py:362-376 | the key is awaited and has a timer that ends in a quarter of a second; reading is paused if it was the first |
| RouterRuntime.QuicRouter.ReleaseIngressPause | src/portwyrm/runtime/quic_router.py:382-394 | the key and its timer go, and no other timer; reading resumes if it was the last |
| RouterRuntime.QuicRouter.SessionForDatagram | src/portwyrm/runtime/quic_router.py:450-480 | the indexed lookup returns exactly what a scan of the sessions would |
| RouterRuntime.QuicRouter.DatagramReceived | src/portwyrm/runtime/quic_router.py:499-557 | one client datagram moves the dictionaries as the state machine's step does, and all of them agree afterwards |
| RouterRuntime.QuicRouter.AdmitDatagram | src/portwyrm/runtime/quic_router.py:523-557 | a long-header datagram of no session: queued behind an opening, refused at the limit, collected, given up or routed, as the state machine says |
| RouterRuntime.QuicRouter.QueuePending | src/portwyrm/runtime/quic_router.py:531-540 | a datagram joins its connection's queue, or the connection is given up when eight are queued |
| RouterRuntime.QuicRouter.HoldFragments | src/portwyrm/runtime/quic_router.py:541-547 | the packet's fragments are merged into those held and parsed together; a failure to decrypt or to read frames holds nothing new |
| RouterRuntime.QuicRouter.Decide | src/portwyrm/runtime/quic_router.py:548-557 | a whole hello opens its route if the name is known and the protocol offered, and is dropped otherwise |
| RouterRuntime.QuicRouter.OpenBegins | src/portwyrm/runtime/quic_router.py:559-576 | up to its await an open finds that its session does not exist, and changes nothing but that it is connecting |
| RouterRuntime.QuicRouter.OpenSucceeds | src/portwyrm/runtime/quic_router.py:577-617 | the session is added, the pause begins, to end in a quarter of a second, and the queue is sent; it is a new object and replaces none |
| RouterRuntime.QuicRouter.OpenFails | src/portwyrm/runtime/quic_router.py:609-617 | every pending entry goes and a pause ends |
| RouterRuntime.QuicRouter.UpstreamReceived | src/portwyrm/runtime/quic_router.py:250-269 | one upstream datagram is counted, its announced ID registered, sent to the client, and the pause ended by the first; without a session nothing happens |
| RouterRuntime.QuicRouter.Reaper | src/portwyrm/runtime/quic_router.py:619-631 | connections that have collected for more than ten seconds and sessions idle beyond their timeout go, and nothing else; every session that goes is closed, and none that stays |
| RouterRuntime.QuicRouter.DropStalePending | src/portwyrm/runtime/quic_router.py:623-628 | the loop over a snapshot drops exactly the stale connections that are collecting |
| RouterRuntime.QuicRouter.RemoveIdleSessions | src/portwyrm/runtime/quic_router.py:629-631 | the loop over a snapshot removes exactly the idle sessions |
| RouterRuntime.QuicRouter.PauseTimerFires | src/portwyrm/runtime/quic_router.py:371-376 | a timer releases the pause of its key |
| RouterRuntime.QuicRouter.ReloadRoutes | src/portwyrm/runtime/quic_router.py:482-497 | an unreadable or unchanged file keeps the table; a readable one replaces it whole (see RouterHistory.RoutesAreTheLastDocument) |
| RouterRuntime.QuicRouter.Handle | src/portwyrm/runtime/quic_router.py:250-631 | each event moves the router as the state machine's step of that event, all dictionaries agree afterwards, no live session is closed, and no pause timer is new, but that of a session just opened, or has another deadline |
| RouterRuntime.QuicRouter.Serve | src/portwyrm/runtime/quic_router.py:275-631 | for any sequence of events, the router that has handled them stands for the state that the machine reaches by them, so every theorem about runs is about the dictionaries |
| QuicRoutes.Groups | src/portwyrm/runtime/nginx_quic.py:35-39 | rows are grouped by address and port in order, and the groups are in ascending order |
| QuicRoutes.RenderQuicRoutes | src/portwyrm/runtime/nginx_quic.py:10-32 | the document is that of the recursive specification: enabled rows, grouped, groups and names in order |
| QuicRoutes.RenderedExactly | src/portwyrm/runtime/nginx_quic.py:10-32 | every enabled row is in the document, and every entry of the document is an enabled row |
| QuicRoutes.SortedByName | src/portwyrm/runtime/nginx_quic.py:26 | sorting by server name keeps the rows and puts no later name before an earlier one |
| QuicRoutes.LoadDocument | src/portwyrm/runtime/quic_router.py:488-493 | the nested loops build the table of the recursive specification |
| QuicRoutes.ReadBack | src/portwyrm/runtime/quic_router.py:487-493 | for rows unique by address, port and name, the loaded table has exactly the canonical names of enabled rows, each bound to its row greatest by address, port and name |
| QuicRoutes.RenderIgnoresOrder | src/portwyrm/runtime/nginx_quic.py:10-39 | the document is the same for every permutation of the rows |
| ConfigDiff.FillMatrix | frontend/src/utils/nginxConfig.ts:43-44 | filled in place from the end, every entry is the length of the longest common subsequence of the two remainders |
| ConfigDiff.DiffConfig | frontend/src/utils/nginxConfig.ts:40-55 | the script is the walk through the table; its same and remove lines spell the first text, its same and add lines the second, and it keeps as many lines as the longest common subsequence has |
| ConfigDiff.NoScriptKeepsMore | frontend/src/utils/nginxConfig.ts:44 | no edit script between two texts keeps more lines than the table says, so taking a match is never a loss |
| ConfigDiff.DiffIsMinimal | frontend/src/utils/nginxConfig.ts:40-55 | of all scripts that turn one text into the other none keeps more lines and none is shorter |
| ConfigDiff.DiffIsFirst | frontend/src/utils/nginxConfig.ts:40-55 | of all shortest scripts the diff is the first: it keeps a line wherever one of them can, and removes before it adds; so it is the only one of its kind |
| ConfigDiff.LinesExactly | frontend/src/utils/nginxConfig.ts:41-42 | joining the lines with line feeds gives the text back, and no line holds one |
| ConfigDiff.LinesAreAll | frontend/src/utils/nginxConfig.ts:41-42 | pieces without line feeds are the lines of what they are joined to |
| Text.JoinSplit | frontend/src/utils/nginxConfig.ts:41-42 | joining the pieces gives the text back, and no piece holds the mark |
| SideBySide.SideBySideRows | frontend/src/components/CodeBlock.tsx:75-91 | the columns are the two texts, in order, with exactly the removed and the added lines highlighted; unchanged rows show one line twice, and between matches the shorter side is filled up at the end |
| SideBySide.OneLayout | frontend/src/components/CodeBlock.tsx:75-91 | two well-laid views with the same columns are the same view |
| Generations.ComputeGenerationId | src/portwyrm/runtime/reconcile.py:52-61 | the digest of the framing over sorted names, or an error if any name is unsafe |
| Generations.FramingReadsBack | src/portwyrm/runtime/reconcile.py:53-60 | the framing of a set of files is read back as that set if and only if no path and no content has a NUL, so it tells any two such sets apart |
| Generations.FramingInOrder | src/portwyrm/runtime/reconcile.py:53-61 | the framing has the names in code point order, each followed by its contents and each of both closed by a NUL |
| StringOrder.PrecedesExactly | src/portwyrm/runtime/reconcile.py:55 | a name comes first if it is the beginning of the other, or has the smaller character where they first differ |
| Generations.NulConfuses | src/portwyrm/runtime/reconcile.py:53-60 | with a NUL in the contents of a file two different sets of files can have one framing |
| Generations.SafeStaysBelow | src/portwyrm/runtime/reconcile.py:63-68 | an accepted name, followed step by step with two dots going up, leads strictly below the directory it starts from, to its parts |
| Generations.RefusedExactly | src/portwyrm/runtime/reconcile.py:63-68 | a name is refused if and only if it is absolute, has a piece of two dots, or has no piece that leads anywhere |
| Generations.BuiltExactly | src/portwyrm/runtime/reconcile.py:77-82 | a staged directory holds exactly the given files if and only if names that lead to one path have one contents |
| Generations.OnePathTwoNames | src/portwyrm/runtime/reconcile.py:77-82 | with the names ./a and a a directory is staged that does not hold both files |
| Generations.BuildsCompatible | src/portwyrm/runtime/reconcile.py:74-86 | without a fault from outside, staging succeeds if and only if every name is safe and free of NUL and no name needs a directory where another is a file |
| Generations.GenerationStore.StageFiles | src/portwyrm/runtime/reconcile.py:70-86 | an existing generation is returned as it is; otherwise the whole directory is added, or, whichever step fails, nothing is |
| Generations.GenerationStore.Activate | src/portwyrm/runtime/reconcile.py:98-104 | the manifest names the generation if its directory exists, and is otherwise as it was |
| Generations.GenerationStore.ClearActive | src/portwyrm/runtime/reconcile.py:106-107 | no generation is active |
| Reconciliation.Reconciler.ReloadGeneration | src/portwyrm/runtime/publisher.py:17-37 | the link leads to the generation unless publishing fails, in which case it is as it was, or a real directory in its place is gone |
| Reconciliation.Reconciler.Reconcile | src/portwyrm/runtime/reconcile.py:131-162 | every outcome of validator, publisher and reloader leads to the site and the result of the specification |
| Reconciliation.OutcomeExactly | src/portwyrm/runtime/reconcile.py:131-162 | each outcome happens exactly when the files can be named, are active, can be staged, are valid and are reloaded or not; with the previous generation and whether the rollback was clean |
| Reconciliation.AttemptLeaves | src/portwyrm/runtime/reconcile.py:139-160 | an attempt adds the directory if it could be staged, and a note for each failure after that, and changes no other |
| Reconciliation.LinkLeft | src/portwyrm/runtime/publisher.py:17-37 | after an attempt the link leads where it did, to the generation applied, or to where publishing the candidate and then the previous generation leaves it |
| Reconciliation.FailureKeepsActive | src/portwyrm/runtime/reconcile.py:139-160 | an attempt that does not apply leaves ACTIVE as it was, and one that never reached the reloader leaves the published link too |
| Reconciliation.RollbackRestoresCurrent | src/portwyrm/runtime/reconcile.py:153-158 | after a failed reload with a previous generation, ACTIVE and the link lead to it if the second publication succeeds |
| Reconciliation.InStepUnlessCandidateLeft | src/portwyrm/runtime/reconcile.py:146-160 | an attempt takes the link out of step with ACTIVE if and only if its files are named, not already active and staged, they are valid, the reload fails after publication, and there is no previous generation or its publication fails |
| Reconciliation.FirstFailureLeavesCandidate | src/portwyrm/runtime/reconcile.py:151-152 | a first generation whose reload fails stays published with nothing active |
| Reconciliation.ActiveIsLastApplied | src/portwyrm/runtime/reconcile.py:131-162 | after every run, whatever the validator and the reloader did, ACTIVE names the generation of the last attempt that applied, if any; it is staged, and some attempt validated and reloaded it |
| Reconciliation.StagedNeverChanges | src/portwyrm/runtime/reconcile.py:70-86 | a staged generation is never changed or removed by later attempts |
| Reconciliation.StagedWhole | src/portwyrm/runtime/reconcile.py:70-86 | after every run each staged directory is the whole result of one attempt |
| Reconciliation.StagedHoldsItsFiles | src/portwyrm/runtime/reconcile.py:53-86 | after any run over files without NUL whose digests do not collide, the directory that files are named by holds exactly them if and only if they are consistent |
| Leases.Duration | src/portwyrm/tables/runtime.py:372 | a duration of a second or more is kept, a missing or zero one means sixty seconds, and none is shorter than a second |
| Leases.LeaseStore.AcquireLease | src/portwyrm/tables/runtime.py:356-379 | refused exactly when another holder has an unexpired lease, and then nothing changes; otherwise granted from now for the duration |
| Leases.LeaseStore.RenewLease | src/portwyrm/tables/runtime.py:382-395 | extends the unexpired lease of its own holder, and nothing else |
| Leases.LeaseStore.ReleaseLease | src/portwyrm/tables/runtime.py:398-407 | removes the lease of its own holder, and nothing else |
| Leases.GrantExactly | src/portwyrm/tables/runtime.py:355-407 | an acquisition is refused exactly while the lease of another holder runs, a renewal exactly unless its own does, and each lasts for its duration |
| Leases.AfterExactly | src/portwyrm/tables/runtime.py:355-407 | a call changes only the lease of its name: to what it grants, or away if its holder releases it |
| Leases.HeldUntilExpiry | src/portwyrm/tables/runtime.py:355-407 | with a clock that does not go back, until its latest grant expires or is released the name stays with its holder |
| Leases.MutualExclusion | src/portwyrm/tables/runtime.py:361-371 | while a holder's latest grant is unexpired and unreleased, no other holder acquires or renews the name, and the attempt changes nothing |
| Leases.SupersededChangesNothing | src/portwyrm/tables/runtime.py:381-407 | once the name has been granted to another, renewing or releasing by its former holder changes nothing |
| Leases.FreeAfterExpiry | src/portwyrm/tables/runtime.py:365-379 | when the last grant has expired, any holder can acquire the name |
| RuntimeTables.GenerationTable.RecordRow | src/portwyrm/tables/runtime.py:160-181 | the row of the generation is added or overwritten |
| RuntimeTables.GenerationTable.ActivateRow | src/portwyrm/tables/runtime.py:233-273 | every row becomes inactive, then the row of the generation active, remembering which was active before; an unknown generation changes nothing |
| RuntimeTables.GenerationTable.ClearActiveRow | src/portwyrm/tables/runtime.py:276-297 | an active row is superseded, and is the one reported |
| RuntimeTables.GenerationTable.StageRow | src/portwyrm/tables/runtime.py:136-157 | a rendered generation becomes a staged row unless it is the active one |
| RuntimeTables.ActivateMovesActive | src/portwyrm/tables/runtime.py:252-269 | after activation exactly the given generation is active, whatever was before |
| RuntimeTables.RecordKeepsActive | src/portwyrm/tables/runtime.py:160-181 | recording another generation as inactive leaves the active row alone |
| RuntimeTables.StageKeepsActive | src/portwyrm/tables/runtime.py:132-157 | staging leaves the active row alone |
| RuntimeTables.ClearLeavesNone | src/portwyrm/tables/runtime.py:276-297 | with at most one active row, clearing leaves none |
| RuntimeTables.RecordWrites | src/portwyrm/tables/runtime.py:160-181 | recording writes every field but the time of activation, and leaves other rows alone |
| RuntimeTables.ActivateWrites | src/portwyrm/tables/runtime.py:233-273 | activating makes the row active from now on with what was active as its previous, and every other row only inactive |
| RuntimeTables.ClearWrites | src/portwyrm/tables/runtime.py:276-297 | clearing supersedes the active row and changes nothing else |
| RuntimeTables.StageWrites | src/portwyrm/tables/runtime.py:132-157 | staging writes the files of a row that is not active and leaves all others alone |
| RuntimeController.Controller.ReconcileFiles | src/portwyrm/runtime/controller.py:127-169 | lease, filesystem, mirror and release lead to the state and verdict of the specification, on every outcome |
| RuntimeController.Controller.Persist | src/portwyrm/runtime/controller.py:187-224 | the generation is recorded, activated if it applied, and the attempt is logged |
| RuntimeController.Controller.StageGeneration | src/portwyrm/tables/runtime.py:132-157 | a generation is staged on disk and in the table, or neither if staging fails |
| RuntimeController.ReconcileKeepsMirror | src/portwyrm/runtime/controller.py:138-164 | applied, unchanged, or failed and rolled back, the table goes on having at most one active row, the one that ACTIVE names, and the last applied log entry goes on naming it |
| RuntimeController.AttemptRecorded | src/portwyrm/runtime/controller.py:138-224 | for every outcome, the verdict, the log entry and every field of every row that a reconcile leaves; a generation found already active loses its previous one, and a failure is noted on disk in the same words |
| RuntimeController.StageLeaves | src/portwyrm/tables/runtime.py:132-157 | staging leaves the directory and the row of the files if they could be staged, and otherwise changes nothing |
| RuntimeController.RunKeepsMirror | src/portwyrm/runtime/controller.py:138-224 | in every run of reconciles by any holders, with staging and lease calls between them, the table mirrors the manifest |
| OverlappingReconciles.AloneIsReconcile | src/portwyrm/runtime/controller.py:138-169 | taking the lease, changing the files and writing the outcome, with nothing between them, are the one step of RuntimeController.Reconcile |
| OverlappingReconciles.MirrorsExactly | src/portwyrm/runtime/controller.py:138-224 | in every run of these three steps by any holders, whatever leases run out and however reconciles overlap, the table has at most one active row, and it mirrors the manifest if and only if the outcomes show the same generation in the order in which they were written as in the order in which the files were changed |
| OverlappingReconciles.InTimeMirrors | src/portwyrm/runtime/controller.py:138-169 | if nobody asks for a lease once that of a reconcile under way has run out, at most one reconcile is ever under way, and whenever none is the table mirrors the manifest |
| OverlappingReconciles.OvertakenBreaks | src/portwyrm/runtime/controller.py:138-169 | the mirror can be lost: of any two reconciles that both apply, on different generations, the first outstays its lease and writes last |
| OverlappingReconciles.OvertakenExactly | src/portwyrm/runtime/controller.py:138-169 | a reconcile that another overtakes after its lease ran out: written first it does no harm; written last it leaves the table mirroring the manifest if and only if the other failed, or both applied the same generation, or it failed itself and on another generation |
| RuntimeController.HeldLeaseBlocksReconcile | src/portwyrm/runtime/controller.py:139-144 | a reconcile is refused exactly while another holder's lease runs, and then changes nothing; otherwise it gives the lease back, and changes nothing more if a name is unsafe |
| CertificateMaterial.MaterialStore.Put | src/portwyrm/certificates/manager.py:70-94 | whichever step fails, the directories are those of the specification, and no staging directory is left |
| CertificateMaterial.MaterialStore.Swap | src/portwyrm/certificates/manager.py:79-91 | the old directory is set aside, the new one renamed into place, and the old one put back if that fails |
| CertificateMaterial.PutIsAllOrNothing | src/portwyrm/certificates/manager.py:70-94 | material is new if put succeeds and as it was if it fails, except exactly when removing the backup is what fails; nothing else changes but a backup of this certificate |
| CertificateMaterial.MaterialFiles | src/portwyrm/certificates/manager.py:75-78 | the four files of a directory and what each holds |
| CertificateMaterial.FullChainIsBoth | src/portwyrm/certificates/pem.py:38-42 | the full chain is the file of the certificate followed by that of the intermediate |
| CertificateMaterial.LineExactly | src/portwyrm/certificates/manager.py:97-99 | a value is written as the text between its white space and one line feed, or as nothing if there is none |
| CertificateMaterial.MaterialStore.Detach | src/portwyrm/certificates/manager.py:111-121 | material is set aside under a new name, if there is any |
| CertificateMaterial.MaterialStore.RollbackDetach | src/portwyrm/certificates/manager.py:123-125 | what was set aside is put back |
| CertificateMaterial.MaterialStore.CommitDetach | src/portwyrm/certificates/manager.py:127-130 | what was set aside is removed |
| CertificateMaterial.MaterialStore.Delete | src/portwyrm/certificates/manager.py:104-109 | material is removed if there is any |
| CertificateMaterial.RestoredAsBefore | src/portwyrm/certificates/table_manager.py:216-244 | detaching, putting with any outcome, deleting and restoring leaves the material that was there and nothing set aside |
| CertificateMaterial.CommittedIsNew | src/portwyrm/certificates/table_manager.py:216-238 | detaching, putting and dropping leaves the new material and nothing set aside |
| CertificateManager.Manager.UpdateResource | src/portwyrm/api/compat/resources.py:168-213 | the payload is written over the current record; without a record nothing is written |
| CertificateManager.Manager.DeleteResource | src/portwyrm/api/compat/resources.py:310-326 | the record goes if there is one |
| CertificateManager.Manager.UploadNew | src/portwyrm/certificates/table_manager.py:57-91 | a new certificate has both material and an active record in the end, or neither, whichever step fails; other certificates are not touched |
| CertificateManager.Manager.UploadAgain | src/portwyrm/certificates/table_manager.py:63-91 | new material for an existing certificate: both new, or both as they were, except exactly when removing the backup fails, which leaves new material with the old record |
| CertificateManager.Manager.ReplaceAcme | src/portwyrm/certificates/table_manager.py:199-245 | a renewal replaces material and metadata together or not at all, whichever of its steps fails, and leaves nothing set aside |
| CertificateManager.Manager.Perform | src/portwyrm/certificates/table_manager.py:31-266 | whatever the operation and whichever step of it fails, if every certificate had both material and a record or neither, every one has afterwards |
| CertificateManager.PerformAll | src/portwyrm/certificates/table_manager.py:31-266 | whatever operations a new manager performs one after the other, and whichever step of each fails, every certificate has both material and a record, or neither |
| CertificateManager.Manager.DeleteCertificate | src/portwyrm/certificates/table_manager.py:252-266 | a certificate in use is kept; otherwise material and metadata both go, even if the final clean-up fails, or both stay |
| NpmPreflight.PreflightReport.NormalizeRelatedTables | src/portwyrm/migration/npm.py:149-211 | permissions, logins and list entries are folded into the last row of their owner's identifier, credentials become a table, and the warnings are exactly those about what has no owner or an unsupported kind |
| NpmPreflight.FoldedOrWarned | src/portwyrm/migration/npm.py:194-210 | every list entry is folded into exactly one list or warned about, and nothing else comes into the lists |
| NpmPreflight.CredentialsOrWarned | src/portwyrm/migration/npm.py:176-190 | every login becomes a credential or a warning |
| NpmPreflight.NormalizedKeepsRows | src/portwyrm/migration/npm.py:152-211 | every source table is still there, row for row, with only the folded fields changed; only a table of credentials may be replaced |
| NpmPreflight.PreflightReport.SortTables | src/portwyrm/migration/npm.py:113-140 | over all tables, in order, each collection's records and quarantine are those of the specification, and exactly the unsupported tables are warned about |
| NpmPreflight.PreflightReport.QuarantineBrokenReferences | src/portwyrm/migration/npm.py:218-244 | hosts with unresolved references move from the records to the quarantine, and nothing else does (see PreflightOutcome.RecordsExactly and QuarantinedExactly) |
| NpmPreflight.PreflightNpm | src/portwyrm/migration/npm.py:108-146 | the records and quarantine of every collection are what the two passes make of its rows, the warnings are those of folding and of unsupported tables, and the counts are those of the records |
| NpmPreflight.PreflightConserves | src/portwyrm/migration/npm.py:121-140 | every row of a supported table ends in exactly one place: among the records, or in quarantine |
| NpmPreflight.KeptExactly | src/portwyrm/migration/npm.py:123-139 | a row passes the first pass if and only if it has an identifier, is not deleted, and no earlier live row has that identifier |
| NpmPreflight.SurvivorsResolve | src/portwyrm/migration/npm.py:218-244 | surviving identifiers are unique in each collection, and after the one pass every reference of a surviving host resolves to a surviving record |
| PreflightOutcome.RecordsExactly | src/portwyrm/migration/npm.py:121-140 | a row is a record if and only if it is the first live row of its identifier and, for a host, each of its references resolves to a record |
| PreflightOutcome.QuarantinedExactly | src/portwyrm/migration/npm.py:124-137 | the quarantine is exactly the rows without an identifier, those whose identifier an earlier live row has, the deleted ones, and the hosts with dangling references, whose fields are named; each with its reason |
| PreflightOutcome.RowsOfExactly | src/portwyrm/migration/npm.py:113-118 | the rows of a collection are those of the tables that feed it |
| PreflightOutcome.TablesFeed | src/portwyrm/migration/npm.py:16-27 | which collection each supported table feeds |
| PreflightOutcome.CollectionsFeed | src/portwyrm/migration/npm.py:115-117 | a table that goes by the name of a collection feeds that one |
| PreflightOutcome.UnsupportedExactly | src/portwyrm/migration/npm.py:118-120 | a table is warned about exactly if it feeds no collection |
| PreflightOutcome.FoldedExactly | src/portwyrm/migration/npm.py:194-210 | a list gains exactly the entries of its identifier, in order after what it had, if it is the last list with that identifier |
| PreflightOutcome.GrantedExactly | src/portwyrm/migration/npm.py:163-174 | a user has what the last permission of its identifier grants, user and hidden standing for what it does not say, if it is the last user with that identifier |
| PreflightOutcome.CredentialsExactly | src/portwyrm/migration/npm.py:176-192 | the credentials are those of password logins with a secret whose owner has an address: the address folded and trimmed, with the secret |
| PreflightOutcome.PermissionsWarned | src/portwyrm/migration/npm.py:163-169 | a permission is warned about exactly if it has no user |
| PreflightOutcome.LoginsWarned | src/portwyrm/migration/npm.py:177-184 | a login is warned about exactly if it makes no credential, for its kind or by its identifier |
| PreflightOutcome.ChildrenWarned | src/portwyrm/migration/npm.py:198-204 | a list entry is warned about exactly if it has no list, by its table |
| PreflightOutcome.NormalizedTables | src/portwyrm/migration/npm.py:152-211 | each table stays in its place, with permissions folded into users and entries into access lists, and no other change |
| PreflightOutcome.NormalizedCredentials | src/portwyrm/migration/npm.py:191-192 | the credentials become a table of their own, if there are any |
| RoutingClaims.CanonicalDomains | src/portwyrm/tables/routing.py:114-129 | accepted if and only if all canonical names are valid and distinct and there are 1 to 100; each error names a real cause |
| RoutingClaims.CanonicalDomainExactly | src/portwyrm/tables/routing.py:120 | the canonical domain is the fold of what stands between white space, without the dots that close it |
| RoutingClaims.ConflictsShareTransport | src/portwyrm/tables/routing.py:1165-1169 | the table of conflicting protocols says exactly which protocols share a transport |
| RoutingClaims.ExpansionAgreesWithConflicts | src/portwyrm/tables/routing.py:1290-1302 | expanding every stream into ports of a transport finds a repeated one exactly when two streams conflict by the table |
| RoutingClaims.ValidateInventory | src/portwyrm/tables/routing.py:1274-1302 | the inventory is accepted if and only if no domain and no port of a transport is claimed twice; otherwise the collision reported is real: the domain with its earlier owner, or a port of a transport that is claimed at two places |
| StreamRoutes.StreamTable.Create | src/portwyrm/api/compat/resources.py:153-156 | a stream is accepted exactly when its ports and target are valid and it can be open beside all others; the reason for a refusal is the first that applies |
| StreamRoutes.StreamTable.Update | src/portwyrm/api/compat/resources.py:198-203 | a change is accepted exactly when the stream as changed is valid and can be open beside all others; a missing stream is reported, and the reason for any other refusal is the first that applies |
| StreamRoutes.MergedExactly | src/portwyrm/api/compat/resources.py:178-179 | a value that is sent replaces the stream's, and one that is not leaves it, field by field |
| StreamRoutes.FreeForNew | src/portwyrm/tables/routing.py:1170-1177 | the conflict query without exclusion is empty exactly when the table with the new stream is acceptable |
| StreamRoutes.FreeForChange | src/portwyrm/tables/routing.py:1170-1177 | the conflict query that excludes a stream is empty exactly when the table with that stream changed is acceptable |
| StreamRoutes.Serve | src/portwyrm/tables/routing.py:1139-1177 | whatever creates, updates, toggles and deletes a table has served, the inventory accepts its streams |

## Left out

- Decryption of Initial packets (keys, header protection, AEAD): any outcome is allowed for any datagram, and nothing is claimed about which datagrams decrypt.
- Sockets, asyncio scheduling, log lines and the figures that only logs use; a handler runs to its next await in one step, and `_open` is the only one that suspends.
- RouterRuntime.QuicRouter.OpenSucceeds: does not model an error raised while the queue is sent, because asyncio's datagram transport reports socket errors to `error_received` instead of raising them.
- `connection_lost` and the receive buffer of the listening socket.
- Case folding and `strip` beyond ASCII, and JSON as text: an unreadable or unchanged route file is one event that keeps the table.
- RouterRuntime.QuicRouter.AddSession: is stated for a key that is absent and IDs that have no owner, because its one caller adds a new key with no IDs.
- RouterRuntime.QuicRouter.QueuePending: collapses the entries that the code sets and drops again within one step when the queue is full.
- CryptoFrames.AssembledGrows: gives a condition that is enough; the exact one is AssembledGrowsExactly.
- Generations.FramingReadsBack: is stated on characters; the UTF-8 encoding in between is injective and is not modelled.
- Reconciliation.StagedHoldsItsFiles: assumes that the truncated digest does not collide on the files of the run, since it has only eighty bits.
- Reconciliation.ActiveIsLastApplied: covers failures of staging, validation, publication and reloading; a failing write of ACTIVE itself, the Windows branch of publication, and the death of the process between two steps are not modelled.
- RuntimeController.RunKeepsMirror: takes each reconcile as one step; a lease that runs out while one is under way is the subject of OverlappingReconciles.
- OverlappingReconciles.MirrorsExactly: takes the changes of one reconcile to the files as one step, and what it writes to the database, which succeeds, as another; two processes inside either at once are not modelled.
- RuntimeController.Controller.Persist: does not model the host revision rows, whose first row for a host and generation is never updated, so that they do not say what is applied.
- CertificateManager.Manager.UploadNew: stands for `request` as well, whose steps after issuing are the same; issuing, validating PEM and building the payloads are not modelled.
- CertificateManager.Manager.ReplaceAcme: one step fails, without effect, and the compensating steps succeed; each record has every column, so writing the old record over the new one restores it.
- NpmPreflight.PreflightReport.NormalizeRelatedTables: does not model an access list whose items or clients are still JSON text, on which the code raises.
- NpmPreflight.PreflightNpm: decoding of JSON fields, which touches neither identifiers nor references, and the order in which counts are listed are left out.
- StreamRoutes.StreamTable.Update: the replace operation, which skips the check, is not a step.
- Nginx text, `generation.diff`, merged access lists, authentication, settings, audit projection and the command line.
