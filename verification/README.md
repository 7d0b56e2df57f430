# tiny-httpd: a verified model

tiny-httpd serves static files over HTTP/1 from one content root, answers two Kubernetes probes, and
shuts down gracefully. This project models its two intricate parts in Dafny 4.11 and proves what they
promise, for all inputs and all runs. `dafny verify dfyconfig.toml` checks everything.

## From a request path to a file

- `ByteStrings.dfy`, `Utf8.dfy`, `Utf8Encoding.dfy`: byte strings, splitting at slashes, and well-formed
  UTF-8 (section 4 of RFC 3629), proved to be exactly the encodings of Unicode scalar values.
- `PercentDecoding.dfy`: the decoding loop, proved equal to a left-to-right reading, and that reading
  proved to be exactly the inverse of percent-encoding (sections 2.1 and 2.4 of RFC 3986). The
  encodings of a string are described without reading them: byte by byte, each byte in any spelling.
- `RequestTarget.dfy`: the lexical checks and the candidate paths, over path components as the Rust
  standard library reads them on Unix.
- `FileTree.dfy`: a fixed tree of directories, regular files, other nodes and symbolic links (relative
  or absolute, dangling or cyclic), and pathname resolution with a link budget (section 4.13 of the
  Base Definitions of IEEE Std 1003.1-2017). A path is resolved piece by piece; every further piece,
  the empty one after a final slash included, needs a searchable directory. The walk's errors stay
  apart: only plain absence is skipped by the lookup, everything else is an I/O error.
- `Lookup.dfy`: the lookup loop with its `allow_directory_index_fallback` flag, proved equal to the
  lookup table. One round of the loop is the method `Inspect`. The file system is called through an
  object that logs every call, and the loop is proved to make exactly the calls that the table lists.
- `Links.dfy`: where links lead. A target is the text of a place, from the root or from the link's own
  directory, with steps up and names down; the way of a path is a sequence of stops, and a walk is proved
  to end where its way does and to spend one link for each link on it.
- `ServedFiles.dfy`: the lookup table by canonical paths, containment, completeness, and agreement
  between request paths.
- `LinkedFiles.dfy`: the answer for any path through any links, from where its way ends or is blocked.
- `Responses.dfy`, `Handler.dfy`: the response builder, the router, the flags and the request metrics.
- `Answers.dfy`: the exact answer (status, headers, body) on every branch of the router.

## Serving, closing and draining

- `Connection.dfy`: the activity-signalling I/O wrapper and the task of one connection, as objects.
- `AcceptLoop.dfy`: the accept loop's arms, the broadcast and the two drains, as an object, and a driver
  that takes the object through any run of the transition system. The signal arm's two stores are two
  steps there (`AcceptLoop.SignalArmIsTwoSteps`).
- `Server.dfy`: the transition system. Its state holds the accept loop (phase, flags, channel, join set),
  every connection task, every request with the metrics, and a clock. Each request is answered from the
  content found at that moment, which is arbitrary. An answer depends on one of the two flags only
  (`Handler.RouteLoadsOneFlag`), so that loading it is one step. Each select arm and each store
  to a flag is a step of its own; a run is any sequence of enabled steps. The objects above are proved
  to change their state exactly by the functions that the steps are made of.
- `Safety.dfy`: the invariant that every step keeps. `Counting.dfy` counts.
- `Shutdown.dfy`: properties of whole runs for every schedule.
- `Histories.dfy`: the events of a run that account for what it shows: why a connection is closing, why it
  ended, where an answer comes from, why a request was cancelled; and what is possible at any time.
- `Timing.dfy`: time bounds. A run is *timely* when the clock never passes an armed timer and never
  moves while the accept loop is between two awaits, a join is ready, a permit is pending, a broadcast
  is unseen or an aborted task has not ended. `TimeIsNeverStuck` shows that this assumption never
  blocks time for good: whenever time may not pass, the server has a step of its own to take, every such
  step takes away from a finite amount of work (`UrgentStepsRunOut`), and so time goes on (`TimeGoesOn`)
  and a shutdown ends (`ShutdownCompletes`).

## Where the documentation and the code differ

The model follows the code.

- docs/operations.md says that non-probe requests are rejected with 503 during the drain; only GET and
  HEAD are, and other verbs still get 405 (`DrainOrdering`).
- docs/operations.md ties I/O errors to existing files; a path such as `/hello.txt/` below a regular
  file is an I/O error too, and so 500 rather than 404 (`FinalSlash`).
- docs/operations.md promises the welcome page whenever no usable `index.html` exists; an index that
  leads out of the root gives 400, and one that cannot be read gives 500 (`WelcomePage`, `StatusOfGet`).
- docs/operations.md says that the listener closes after the readiness window; the code stops accepting
  then, but keeps the listener until it returns. The claim proved is that no accept step follows.

## Model

| member | source | states |
|---|---|---|
| PercentDecoding.DecodePercentPath | src/fs.rs:165-195 | the loop returns what reading the path unit by unit from the left gives, for every byte string |
| PercentDecoding.DecodeIffEncodes | src/fs.rs:165-195 | a path decodes to a string iff it spells that string byte by byte (no null byte, no escaped slash, no bare percent sign) and the string is UTF-8 |
| PercentDecoding.DecodeFailure | src/fs.rs:165-195 | a failure is the fault of the leftmost bad unit, and `InvalidUtf8` only if no unit is bad |
| PercentDecoding.DecodeSplits | src/fs.rs:165-195 | a path decodes iff every raw piece between slashes does, and the decoded pieces are then the pieces of the result |
| PercentDecoding.OnlySlashDecodesToSlash | src/handler/routing.rs:143 | only `/` itself decodes to `/` |
| Utf8Encoding.ValidIffEncoding | src/fs.rs:194 | a byte string passes for UTF-8 iff it is the encoding of some sequence of Unicode scalar values |
| Utf8.ValidBySegments | src/fs.rs:194 | a byte string is UTF-8 iff every piece between its slashes is |
| RequestTarget.AcceptedTargets | src/fs.rs:58-89 | the exact result of `candidate_paths` on every path, from its decoded pieces: which error comes first, and which candidates |
| RequestTarget.WellFormedIffAccepted | src/fs.rs:58-89 | a target is accepted iff it writes, in any encoding, a UTF-8 path whose pieces hold no `..` and no empty piece but the last |
| RequestTarget.CandidatesStayBelow | src/fs.rs:77-88 | every candidate is relative, not empty, and has no `..` and no empty piece, so that joining it never replaces or climbs above the root |
| RequestTarget.UnreachableChecks | src/fs.rs:64-66 | the second test for a leading slash and the validator's test for an absolute path never fire |
| FileTree.CanonicalizeTwice | src/fs.rs:117 | a canonical path names a node that is no link below searchable directories, and canonicalizing it again gives it back |
| Lookup.PreparedRootIsCanonical | src/bin/tiny-httpd.rs:275-302 | startup hands out the canonical path exactly for a directory, complains exactly about other nodes, and goes on without a root otherwise; its inspection and its canonicalization never disagree |
| Lookup.CanonicalPathIsStable | src/fs.rs:125-145 | inspecting and opening a canonical path reaches the very node that canonicalization found |
| Lookup.Inspect | src/fs.rs:116-146 | one round of the loop finds what the declarative probe says (missing, broken, outside, a directory, a file, or something else) and logs exactly its calls |
| Lookup.ResolveFile | src/fs.rs:104-150 | the loop with its flag returns the lookup table's answer on every tree and path (direct lookup first, the index only if that is a directory inside the root) and makes exactly that table's file-system calls |
| ServedFiles.ResolveIsWalk | src/fs.rs:111-149 | the answer is settled by walking the decoded pieces of the target from the root node |
| ServedFiles.LookupTable | src/fs.rs:109-150 | for every accepted target on every tree, each outcome (file, `Escape`, `NotFound`, each `Io`) iff its condition on the canonical path of the deciding candidate |
| Links.FollowLink | src/fs.rs:117 | a link leads to the place that its text names from its directory or from the root, climbing or not, at the cost of one link; with none left it is too many links |
| Links.WalkAlong | src/fs.rs:117 | a walk ends where the way of its pieces ends, through any links, and fails as too many links iff the way has more than may be followed |
| Links.LoopsAreRefused | src/fs.rs:117 | links that point to one another in a circle are too many links, however many may be followed |
| LinkedFiles.LookupAlong | src/fs.rs:109-150 | the answer for any path through any links, from what lies where its way ends: missing, outside, a file, unreadable, special, or a directory with its index |
| LinkedFiles.SlashLookupAlong | src/fs.rs:81-83 | the same for a path with a final slash, from where the way of its index ends |
| LinkedFiles.BlockedAlong | src/fs.rs:117-123 | a missing name on the way is not found; a file or an unsearchable directory on the way is an I/O error |
| LinkedFiles.TooManyLinksAlong | src/fs.rs:117-123 | more links than may be followed, or a way into a loop of links, is an I/O error and not a missing file |
| LinkedFiles.LinkIsServedAsItsTarget | src/fs.rs:109-147 | any encoding of a link's path is answered with the file it points to, or with `Escape` if that lies outside the root |
| LinkedFiles.SelfLinkIsRefused | src/fs.rs:117-123 | a link to itself is `Io`, not `NotFound` |
| LinkedFiles.ExampleLink | src/fs.rs:109-147 | on a concrete tree, a link to its sibling is served as the sibling |
| LinkedFiles.ExampleCircle | src/fs.rs:117-123 | on the same tree, a link to itself is an I/O error |
| ServedFiles.Containment | src/fs.rs:111-147 | on every tree a served file is below the root, on a path without links, a readable regular file, the node that the target (or its index) leads to, with its own content and length |
| ServedFiles.LookupsAreConfined | src/fs.rs:108-147 | on every tree, a lookup calls the file system iff the target is well formed; it inspects and opens only link-free paths inside the root, opens at most one regular file, as its last call, and serves only what it opened |
| ServedFiles.EveryFileHasItsPath | src/fs.rs:104-150 | every readable regular file below the root with UTF-8 names, reached through searchable directories, is what any encoding of its path resolves to |
| ServedFiles.EveryIndexHasItsPath | src/fs.rs:85-88 | a directory's `index.html` is what any encoding of the directory's path resolves to |
| ServedFiles.EveryIndexHasItsSlashPath | src/fs.rs:77-83 | the same with a final slash, and for the root itself at `/` |
| ServedFiles.NoEscapeWithoutLinks | src/fs.rs:131-133 | in a tree without links no request path yields `Escape` |
| ServedFiles.RequestableFiles | src/fs.rs:104-150 | in a tree without links a path can be requested iff it is a servable file whose names are UTF-8 |
| ServedFiles.EqualDecodings | src/fs.rs:58-150 | paths with equal decodings are answered alike |
| ServedFiles.OnlySlashIsTheRoot | src/fs.rs:77-79 | only `/` is looked up as the root's index, so the raw test for the welcome page is exact |
| ServedFiles.FinalSlash | src/fs.rs:81-149 | how `/foo` and `/foo/` relate, for every place that `/foo` can lead to, outside the root included |
| Responses.TextResponseWithHeaders | src/handler/response.rs:113-131 | the builder loop gives status, type, length and all extra headers in order, or the generic 500 if a header is not valid |
| Responses.TextHasItsHeaders | src/handler/response.rs:113-131 | status, text, type and length first, then the i-th extra header in place 2 + i and no others; or the plain 500 iff one is not valid |
| Handler.ProbeResponse | src/handler/routing.rs:214-220 | status, plain-text headers and size do not depend on HEAD; the body is the text, and missing exactly for HEAD |
| Handler.MapFileError | src/handler/routing.rs:188-203 | 404 iff absent, 500 iff an I/O error, 400 otherwise; declared, recorded and sent lengths agree; and the whole answer follows from the status, so no cause reaches the client |
| Handler.RouteRequest | src/handler/routing.rs:85-146 | routing returns the declarative answer for every verb, path, flag state and tree, and makes exactly the file-system calls that go with it |
| Handler.HandleRequest | src/handler/routing.rs:39-82 | a handled request leaves the gauge as it was, is counted once with its status and recorded size, and makes exactly the file-system calls of its answer |
| Handler.InFlightRequestGuard.Finish | src/metrics.rs:100-105 | finishing takes the request off the gauge once, however often it is called |
| Handler.InFlightRequestGuard.Drop | src/metrics.rs:108-115 | dropping an unfinished guard takes it off the gauge, and a finished one changes nothing |
| Handler.HeadMatchesGet | src/handler/routing.rs:85-220 | HEAD and GET agree in status, headers and recorded size through the whole router; the declared length is the recorded one and that of the GET body (section 9.3.2 of RFC 9110) |
| Handler.StreamedBodiesAreContained | src/handler/response.rs:61-90 | a streamed body is the whole content of a readable regular file inside the root |
| Handler.WelcomePage | src/handler/routing.rs:137-155 | the page is sent exactly for `/`, outside the drain, when there is no root or its index is missing or no file |
| Handler.StatusOfGet | src/handler/routing.rs:137-203 | 400, 404, 500 and 200 exactly characterized by the shape of the target and what the tree holds |
| Handler.OnlyTheDrainRefuses | src/handler/routing.rs:132-135 | outside `/readyz`, 503 is the answer exactly to a GET or HEAD that the drain check turned away |
| Handler.AccessesAreDue | src/handler/routing.rs:85-146 | exactly which requests make any file-system call: a readiness probe while ready, and a GET or HEAD of a well-formed target outside the drain, each only with a content root |
| Answers.LivenessProbe | src/handler/routing.rs:86-89 | `/livez` is 200 `ok` for every verb, flag state and content |
| Answers.ReadinessProbe | src/handler/routing.rs:91-122 | `/readyz` is 200 `ready` iff the server is ready and has no root or one that is still a directory, and 503 `not ready` otherwise |
| Answers.PreparedRootIsReady | src/bin/tiny-httpd.rs:275-302 | a ready server answers 200 at `/readyz` with whatever root startup handed out, while the tree stays |
| Answers.OtherVerbs | src/handler/routing.rs:124-130 | every other verb outside the probes gets 405 with `allow: GET, HEAD`, draining or not |
| Answers.Refusals | src/handler/routing.rs:132-135 | a drained GET or HEAD outside the probes gets 503 `not ready` |
| Answers.GetWithoutRoot | src/handler/routing.rs:149-155 | without a root, `/` is the welcome page and everything else 404 |
| Answers.GetFile | src/handler/response.rs:61-90 | a found file is sent whole, with its own media type and length; 500 iff that type cannot be a header |
| Answers.GetNoFile | src/handler/routing.rs:141-203 | a failed lookup is 404, 500 or 400 with a text that follows from the status, but for the welcome page in place of a missing root index |
| Answers.NamesAreSpelled | src/handler/routing.rs:86-91 | the probe paths, the index name and the special bytes are the texts they stand for |
| Connection.ActivityIo.PollRead | src/server/activity_io.rs:47-62 | a read passes through and leaves a permit iff bytes arrived |
| Connection.ActivityIo.PollWrite | src/server/activity_io.rs:69-83 | a write passes through and leaves a permit iff bytes were written |
| Connection.ActivityIo.PollWriteVectored | src/server/activity_io.rs:93-107 | the same for vectored writes |
| Connection.ConnectionTask.Iterate | src/server/accept.rs:236-289 | one iteration changes the task exactly as the transition system's arm does, whose grace time and endings `Histories.EndsAreDue` pins |
| Connection.ArmsTakeEffect | src/server/accept.rs:236-289 | idleness, a broadcast `true` and a closed channel close a task with the graceful timeout; a change still `false` is only noted; activity renews the idle timeout; a closing task is ended |
| Connection.ConnectionTask.Serve | src/server/accept.rs:214-290 | the loop over any schedule of ready arms ends in the state that the arms give one after the other |
| Connection.ClosingIsFinal | src/server/accept.rs:247-288 | once closing, a task keeps its deadline, asks for no second close and takes at most one more iteration, which ends it |
| Connection.ClosesOnce | src/server/accept.rs:257-281 | a task has asked for a graceful close exactly once if it is closing and never otherwise |
| AcceptLoop.Acceptor.OnSignal | src/server/accept.rs:133-146 | the arm stores both flags in order and arms the window |
| AcceptLoop.Acceptor.OnAccept | src/server/accept.rs:155-178 | a failed accept changes nothing; a successful one subscribes and spawns a task that starts now; both whenever the loop accepts, which `Histories.ServingIsOpen` and `Shutdown.AcceptsStayOpen` pin |
| AcceptLoop.Acceptor.OnWindow | src/server/accept.rs:147-154 | the window timer ends the accept loop and leaves flags, channel and tasks as they are |
| AcceptLoop.Acceptor.OnBroadcast | src/server/accept.rs:182-186 | sends `true` unless nobody is subscribed, and arms the drain timeout |
| AcceptLoop.Acceptor.DrainConnections | src/server/accept.rs:299-305 | joins every task exactly once, in whatever order they end |
| AcceptLoop.Acceptor.Close | src/server/accept.rs:182-198 | broadcast, timed drain, abort no earlier than the drain timeout, and second drain together join every task exactly once, abort exactly the tasks not joined in time, and end returned |
| AcceptLoop.Acceptor.Run | src/server/accept.rs:96-199 | in every run of the transition system, the object that is told only of its own arms, the clock and dropped receivers ends with the run's phase, flags, channel, join set and aborted tasks |
| Safety.Always | src/server/accept.rs:96-199 | every reachable state keeps the invariant on flags, channel, receivers, join set, connections and request accounts |
| Shutdown.RunIsLater | src/server/accept.rs:131-198 | over any stretch of any run: phases and flags never go back, ended tasks and closing deadlines stay, answers stay |
| Shutdown.ArmsFireOnce | src/server/accept.rs:132-154 | the signal arm and the window timer are taken at most once, and no accept follows the timer |
| Shutdown.AcceptLoopEndsAfterWindow | src/server/accept.rs:131-180 | every way out of the accept loop passes the signal and then the window timer at least 250 ms after readiness was cleared |
| Shutdown.AcceptsStayOpen | src/server/accept.rs:147-178 | for 250 ms after the signal accepts stay enabled, failures included, and never end the loop |
| Shutdown.NoLostShutdown | src/server/accept.rs:165-185 | from the broadcast on every unfinished connection is closing or has an unseen `true`; a failed send means nobody is unfinished |
| Shutdown.ShutdownArmSeesTrue | src/server/accept.rs:263-284 | the shutdown arm always finds an unseen `true`: its closed-channel and still-`false` branches are never taken |
| Shutdown.CloseIsFinal | src/server/accept.rs:257-283 | in every run a closing connection's deadline is frozen and a graceful close was asked for once |
| Shutdown.OneMoreIteration | src/server/accept.rs:236-289 | in every run a closing connection's loop takes at most one more iteration |
| Shutdown.EveryTaskIsJoinedOnce | src/server/accept.rs:186-196 | there are as many connections as successful accepts in the run, none is joined twice, and on return each was joined exactly once and none is unfinished |
| Shutdown.DrainRunsDown | src/server/accept.rs:299-305 | joins and ends of tasks use up the work of the two drains, nothing adds any, and the loop is left exactly when none remains |
| Shutdown.RequestsAreConserved | src/metrics.rs:58-115 | the gauge is always the number of unfinished guards; the starts in the run are the gauge plus the finishes in the run plus the cancelled; on return nothing runs |
| Shutdown.RefusalsAreEvents | src/handler/routing.rs:132-135 | the record that a request was refused holds iff some earlier event of the run answered a request with 503 from the drain check |
| Shutdown.DrainOrdering | src/handler/state.rs:38-49 | the drain flag implies that readiness is down, neither flag goes back, `/livez` is always 200, and after an event that refused a request in the drain check every later request is answered as draining, without a file-system call and just as with any other content |
| Histories.ServingIsOpen | src/server/accept.rs:131-180 | in every run without the signal the server is ready and accepts, failed accepts and the signal are all enabled |
| Histories.AcceptedIsServed | src/server/accept.rs:163-178 | an accepted connection is live from now on for the idle timeout, subscribed and in the join set |
| Histories.PeersAreFree | src/server/accept.rs:236-246 | an unfinished connection may always move bytes, start requests and be done, which ends it and no other |
| Histories.RequestsAreFree | src/handler/routing.rs:57-79 | a running request can always be cancelled, and answered and then counted, in every phase |
| Histories.CloseIsInRun | src/server/accept.rs:247-283 | a closing connection was told to close by an idle timeout or the broadcast, and its deadline is exactly the graceful timeout after that event |
| Histories.EndsAreDue | src/server/accept.rs:186-289 | no connection is dropped early: it was done by itself, or had the whole graceful timeout since it was told to close, or the whole drain timeout had passed since the broadcast |
| Histories.EveryAnswerHasItsRequest | src/handler/routing.rs:39-82 | every answer is the router's for the verb and path of an earlier start of that request, with the flags and the content at the event that answered it |
| Histories.EveryCancelHasItsCause | src/metrics.rs:108-115 | a request is cancelled only by itself or by the end of its own connection |
| Timing.ShutdownBound | src/server/accept.rs:131-198 | in every timely run, unreturned states have a clock of at most signal + 250 + min(graceful, drain) |
| Timing.ShutdownBoundIsReached | src/server/accept.rs:131-198 | that bound is exact for every choice of timeouts |
| Timing.NothingLeftAtTheBound | src/server/accept.rs:131-198 | at the bound the server has returned or has a step of its own to take at once |
| Timing.LifetimeBound | src/server/accept.rs:232-287 | a connection whose last activity in the run (its accept, or bytes moved) was at `t` is finished whenever the clock is beyond `t` + idle + graceful |
| Timing.ExactIdleness | src/server/activity_io.rs:20-23 | while not closing and without a pending permit, the deadline is exactly the time of the last activity in the run plus the idle timeout, so collapsed notifications change nothing |
| Timing.IdleCloseIsJustified | src/server/accept.rs:247-262 | an idle close at `t` means that the connection was accepted by `t - idle` and that the run moves no bytes on it strictly between `t - idle` and `t` |
| Timing.TimeIsNeverStuck | src/server/accept.rs:131-289 | whenever time may not pass, the server has an enabled step of its own, which is neither the signal nor an act of a peer |
| Timing.UrgentStepsRunOut | src/server/accept.rs:131-305 | in every run, however the server's own instantaneous steps follow one another, there are at most as many as a measure of tasks, permits, joins and phases allows |
| Timing.TimeGoesOn | src/server/accept.rs:131-305 | every timely run reaches, by that many of its own steps at most, a state in which time may pass |
| Timing.ShutdownCompletes | src/server/accept.rs:131-198 | from whatever state a timely run is in after the signal, the server's own steps and the passing of time suffice to make it return within the shutdown bound |

## Left out

- HTTP/1 parsing, the header-read timeout and hyper's own closing: the connection future is the
  environment, which may move bytes, start, finish or drop requests, or complete at any time.
- Tokio's scheduler: only the contracts that the code relies on are kept (a one-permit notification, a
  versioned channel, cancel-safe joins, abort at a task's next step, arms chosen in any order).
- Changes to the file tree during one request: each request is answered from a tree of its own, fixed while
  it is answered, as the comment in src/fs.rs accepts; two requests may find different trees.
- Limits on the length of names and paths: resolution never fails for a path that is too long.
- Windows path prefixes and backslashes, and relative content roots: paths are those of the Unix target.
- Media type guessing: an arbitrary function of the canonical path, which may even yield a value that no
  header can hold; the welcome page is an arbitrary byte string.
- Logging, spans, durations in the metrics, telemetry, command-line and timeout parsing, signals.
- Machine integers and the end of the clock: lengths and instants are unbounded.
- Memory ordering: steps interleave, and a store is seen by every later load.
