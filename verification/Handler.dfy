/** Request counters, the shared flags, and the routing of one request. */
module Handler {
  import opened ByteStrings
  import opened Errors
  import opened FileTree
  import opened Lookup
  import opened Responses
  import opened RequestTarget
  import opened ServedFiles

  // ----- Request counters -----

  datatype Completion = Completion(verb: Verb, status: nat, responseBytes: nat)

  /** The handler's instruments: the gauge of active requests, and the completed ones. */
  class HttpMetrics {
    var inFlight: int
    var completed: seq<Completion>

    constructor ()
      ensures inFlight == 0 && completed == []
    {
      inFlight := 0;
      completed := [];
    }

    method RequestStarted() returns (guard: InFlightRequestGuard)
      modifies this`inFlight
      ensures inFlight == old(inFlight) + 1
      ensures fresh(guard) && guard.metrics == this && !guard.finished
    {
      inFlight := inFlight + 1;
      guard := new InFlightRequestGuard(this);
    }

    method RequestFinished(verb: Verb, status: nat, responseBytes: nat)
      modifies this`completed
      ensures completed == old(completed) + [Completion(verb, status, responseBytes)]
    {
      completed := completed + [Completion(verb, status, responseBytes)];
    }
  }

  /** Tracks one request: it leaves the gauge once, when it finishes or when it is dropped unfinished. */
  class InFlightRequestGuard {
    const metrics: HttpMetrics
    var finished: bool

    constructor (metrics: HttpMetrics)
      ensures this.metrics == metrics && !finished
    {
      this.metrics := metrics;
      finished := false;
    }

    method Finish()
      modifies this, metrics`inFlight
      ensures finished
      ensures metrics.inFlight == old(metrics.inFlight) - if old(finished) then 0 else 1
    {
      if !finished {
        metrics.inFlight := metrics.inFlight - 1;
        finished := true;
      }
    }

    method Drop()
      modifies this, metrics`inFlight
      ensures finished
      ensures metrics.inFlight == old(metrics.inFlight) - if old(finished) then 0 else 1
    {
      if !finished {
        Finish();
      }
    }
  }

  // ----- Shared state -----

  class AppState {
    const contentRoot: Option<Path>
    const metrics: HttpMetrics
    var ready: bool
    var shuttingDown: bool

    constructor (contentRoot: Option<Path>)
      ensures this.contentRoot == contentRoot && ready && !shuttingDown
      ensures fresh(metrics) && metrics.inFlight == 0 && metrics.completed == []
    {
      this.contentRoot := contentRoot;
      metrics := new HttpMetrics();
      ready := true;
      shuttingDown := false;
    }

    method MarkNotReady()
      modifies this`ready
      ensures !ready
    {
      ready := false;
    }

    method MarkShuttingDown()
      modifies this`shuttingDown
      ensures shuttingDown
    {
      shuttingDown := true;
    }
  }

  // ----- Routing -----

  datatype Verb = GET | HEAD | OtherVerb(name: string)

  /** `/livez` */
  const LIVEZ: ByteString := [0x2F, 0x6C, 0x69, 0x76, 0x65, 0x7A]
  /** `/readyz` */
  const READYZ: ByteString := [0x2F, 0x72, 0x65, 0x61, 0x64, 0x79, 0x7A]

  /** What the handler reads besides the flags: the tree, the root, the page, and the guessed media types. */
  datatype Site = Site(fs: FileSystem, contentRoot: Option<Path>, page: ByteString, mediaType: Path -> string)

  /** An answer, and the calls into the file system that were made for it. */
  datatype Routed = Routed(outcome: ResponseOutcome, accesses: seq<Access>)

  /** A probe's text response, its body emptied for HEAD. */
  function ProbeOutcome(headOnly: bool, status: nat, body: string): ResponseOutcome {
    var outcome := TextOutcome(status, body, []);
    if headOnly then outcome.(response := outcome.response.(body := Empty)) else outcome
  }

  /** The text with its status, headers and size; for HEAD only the body is missing. */
  method ProbeResponse(headOnly: bool, status: nat, body: string) returns (outcome: ResponseOutcome)
    ensures outcome.response.status == status
    ensures outcome.response.headers == [ContentType(PLAIN_TEXT), ContentLength(|body|)]
    ensures outcome.bodySize == |body|
    ensures outcome.response.body == if headOnly then Empty else Full(body)
  {
    outcome := TextResponse(status, body);
    if headOnly {
      outcome := outcome.(response := outcome.response.(body := Empty));
    }
  }

  /** What a client is told about a failed lookup: a text that follows from the status. */
  function ClientText(status: nat): string {
    if status == NOT_FOUND then "not found\n"
    else if status == INTERNAL_SERVER_ERROR then "internal server error\n"
    else "bad request\n"
  }

  function ErrorOutcome(error: ResolveError): (outcome: ResponseOutcome)
    ensures outcome.response.body.Full?
  {
    match error
    case NotFound => TextOutcome(NOT_FOUND, "not found\n", [])
    case Io(_) => TextOutcome(INTERNAL_SERVER_ERROR, "internal server error\n", [])
    case _ => TextOutcome(BAD_REQUEST, "bad request\n", [])
  }

  /** The status tells absence, failure and bad requests apart, and the client learns nothing else. */
  method MapFileError(error: ResolveError) returns (outcome: ResponseOutcome)
    ensures outcome.response.status in {BAD_REQUEST, NOT_FOUND, INTERNAL_SERVER_ERROR}
    ensures outcome.response.status == NOT_FOUND <==> error == NotFound
    ensures outcome.response.status == INTERNAL_SERVER_ERROR <==> error.Io?
    ensures Consistent(outcome)
    ensures outcome == TextOutcome(outcome.response.status, ClientText(outcome.response.status), [])
  {
    match error
    case BadTarget | InvalidPercentEncoding | InvalidUtf8 | EncodedSlash | NullByte | Traversal | Escape =>
      outcome := TextResponse(BAD_REQUEST, "bad request\n");
    case NotFound =>
      outcome := TextResponse(NOT_FOUND, "not found\n");
    case Io(_) =>
      outcome := TextResponse(INTERNAL_SERVER_ERROR, "internal server error\n");
  }

  /** The content root can still be inspected and is a directory. */
  predicate RootReadable(site: Site)
    requires ValidTree(site.fs)
  {
    match site.contentRoot
    case None => true
    case Some(root) => var node := Metadata(site.fs, Render(root)); node.Success? && node.value.Directory?
  }

  /** The readiness probe inspects the content root if there is one. */
  function RootAccesses(contentRoot: Option<Path>): seq<Access> {
    match contentRoot
    case None => []
    case Some(root) => [Inspected(Render(root))]
  }

  /** The answer to one request, given what it loads from the flags. */
  function Route(site: Site, ready: bool, shuttingDown: bool, verb: Verb, path: ByteString): Routed
    requires ValidTree(site.fs)
  {
    var headOnly := verb == HEAD;
    if path == LIVEZ then Routed(ProbeOutcome(headOnly, OK, "ok\n"), [])
    else if path == READYZ then
      if !ready then Routed(ProbeOutcome(headOnly, SERVICE_UNAVAILABLE, "not ready\n"), [])
      else Routed(if RootReadable(site) then ProbeOutcome(headOnly, OK, "ready\n")
                  else ProbeOutcome(headOnly, SERVICE_UNAVAILABLE, "not ready\n"),
                  RootAccesses(site.contentRoot))
    else if verb.OtherVerb? then
      Routed(TextOutcome(METHOD_NOT_ALLOWED, "method not allowed\n", [("allow", "GET, HEAD")]), [])
    else if shuttingDown then Routed(TextOutcome(SERVICE_UNAVAILABLE, "not ready\n", []), [])
    else
      match site.contentRoot
      case None =>
        Routed(if path == [SLASH] then DefaultIndexOutcome(site.page, headOnly)
               else TextOutcome(NOT_FOUND, "not found\n", []), [])
      case Some(root) => Routed(LookupOutcome(site, root, headOnly, path), ResolveAccesses(site.fs, root, path))
  }

  /** The answer that a file lookup leads to. */
  function LookupOutcome(site: Site, root: Path, headOnly: bool, path: ByteString): ResponseOutcome
    requires ValidTree(site.fs)
  {
    match Resolve(site.fs, root, path)
    case Success(file) => FileOutcome(file, site.mediaType(file.canonicalPath), headOnly)
    case Failure(NotFound) =>
      if path == [SLASH] then DefaultIndexOutcome(site.page, headOnly) else ErrorOutcome(NotFound)
    case Failure(error) => ErrorOutcome(error)
  }

  /** Answers one request, making just the calls into the file system that the answer needs. */
  method RouteRequest(state: AppState, disk: Disk, site: Site, verb: Verb, path: ByteString)
    returns (outcome: ResponseOutcome)
    requires ValidTree(site.fs) && site.contentRoot == state.contentRoot && disk.fs == site.fs
    modifies disk`log
    ensures var routed := Route(site, state.ready, state.shuttingDown, verb, path);
            outcome == routed.outcome && disk.log == old(disk.log) + routed.accesses
  {
    if path == LIVEZ {
      outcome := ProbeResponse(verb == HEAD, OK, "ok\n");
      return;
    }
    if path == READYZ {
      if !state.ready {
        outcome := ProbeResponse(verb == HEAD, SERVICE_UNAVAILABLE, "not ready\n");
        return;
      }
      var readable := true;
      if state.contentRoot.Some? {
        var metadata := disk.InspectPath(Render(state.contentRoot.value));
        readable := metadata.Success? && metadata.value.Directory?;
      }
      if readable {
        outcome := ProbeResponse(verb == HEAD, OK, "ready\n");
        return;
      }
      outcome := ProbeResponse(verb == HEAD, SERVICE_UNAVAILABLE, "not ready\n");
      return;
    }
    if verb != GET && verb != HEAD {
      outcome := TextResponseWithHeaders(METHOD_NOT_ALLOWED, "method not allowed\n", [("allow", "GET, HEAD")]);
      return;
    }
    if state.shuttingDown {
      outcome := TextResponse(SERVICE_UNAVAILABLE, "not ready\n");
      return;
    }
    if state.contentRoot == None {
      outcome := FallbackDefaultResponse(site.page, path, verb == HEAD);
      return;
    }
    outcome := LookupRequest(disk, site, state.contentRoot.value, verb == HEAD, path);
  }

  /** The lookup of a file and the answer it leads to. */
  method LookupRequest(disk: Disk, site: Site, root: Path, headOnly: bool, path: ByteString)
    returns (outcome: ResponseOutcome)
    requires ValidTree(site.fs) && disk.fs == site.fs
    modifies disk`log
    ensures outcome == LookupOutcome(site, root, headOnly, path)
    ensures disk.log == old(disk.log) + ResolveAccesses(site.fs, root, path)
  {
    hide Resolve, ResolveAccesses, FileOutcome, DefaultIndexOutcome;
    var resolved := ResolveFile(disk, root, path);
    match resolved
    case Success(file) =>
      outcome := FileOutcome(file, site.mediaType(file.canonicalPath), headOnly);
    case Failure(error) =>
      if error == NotFound && path == [SLASH] {
        outcome := DefaultIndexOutcome(site.page, headOnly);
      } else {
        outcome := MapFileError(error);
      }
  }

  method FallbackDefaultResponse(page: ByteString, path: ByteString, headOnly: bool) returns (outcome: ResponseOutcome)
    ensures outcome == if path == [SLASH] then DefaultIndexOutcome(page, headOnly)
                       else TextOutcome(NOT_FOUND, "not found\n", [])
  {
    if path == [SLASH] {
      outcome := DefaultIndexOutcome(page, headOnly);
    } else {
      outcome := TextResponse(NOT_FOUND, "not found\n");
    }
  }

  /** One request from start to end: the gauge is back where it was and the request is counted once. */
  method HandleRequest(state: AppState, disk: Disk, site: Site, verb: Verb, path: ByteString)
    returns (response: Response)
    requires ValidTree(site.fs) && site.contentRoot == state.contentRoot && disk.fs == site.fs
    modifies state.metrics, disk`log
    ensures state.metrics.inFlight == old(state.metrics.inFlight)
    ensures var routed := Route(site, state.ready, state.shuttingDown, verb, path);
            && response == routed.outcome.response
            && disk.log == old(disk.log) + routed.accesses
            && state.metrics.completed
               == old(state.metrics.completed) + [Completion(verb, response.status, routed.outcome.bodySize)]
  {
    var guard := state.metrics.RequestStarted();
    var outcome := RouteRequest(state, disk, site, verb, path);
    guard.Finish();
    state.metrics.RequestFinished(verb, outcome.response.status, outcome.bodySize);
    response := outcome.response;
  }

  // ----- What the answers have in common -----

  ghost predicate IsProbe(path: ByteString) {
    path == LIVEZ || path == READYZ
  }

  /** Exactly one `Content-Length` header, and it carries `size`. */
  ghost predicate DeclaresLength(headers: seq<Header>, size: nat) {
    && |headers| >= 2
    && headers[1] == ContentLength(size)
    && forall i :: 0 <= i < |headers| && i != 1 ==> !headers[i].ContentLength?
  }

  /** The size that is declared, the size that is recorded, and the size of the body sent for GET agree. */
  ghost predicate Consistent(outcome: ResponseOutcome) {
    DeclaresLength(outcome.response.headers, outcome.bodySize) && BodyLength(outcome.response.body) == outcome.bodySize
  }

  lemma TextIsConsistent(status: nat, body: string, headers: seq<(string, string)>)
    ensures Consistent(TextOutcome(status, body, headers))
  {
  }

  /** What HEAD and GET answers must share, given whether HEAD drops the body. */
  ghost predicate Agree(head: ResponseOutcome, get: ResponseOutcome, dropped: bool) {
    && head.response.status == get.response.status
    && head.response.headers == get.response.headers
    && head.bodySize == get.bodySize
    && Consistent(get)
    && head.response.body == if dropped then Empty else get.response.body
  }

  lemma ProbesAgree(status: nat, body: string)
    ensures Agree(ProbeOutcome(true, status, body), ProbeOutcome(false, status, body), true)
  {
    TextIsConsistent(status, body, []);
  }

  lemma FilesAgree(file: ResolvedFile, contentType: string)
    requires file.contentLength == |file.content|
    ensures var get := FileOutcome(file, contentType, false);
            Agree(FileOutcome(file, contentType, true), get, get.response.status == OK)
  {
  }

  lemma PagesAgree(page: ByteString)
    ensures Agree(DefaultIndexOutcome(page, true), DefaultIndexOutcome(page, false), true)
    ensures DefaultIndexOutcome(page, false).response.status == OK
    ensures DefaultIndexOutcome(page, false).response.body == Page(page)
  {
    ContentTypesAreValid();
  }

  lemma ErrorsAgree(error: ResolveError)
    ensures Agree(ErrorOutcome(error), ErrorOutcome(error), false) && ErrorOutcome(error).response.status != OK
    ensures !ErrorOutcome(error).response.body.Page?
  {
  }

  /**
   GET and HEAD agree through the whole router in status, headers and recorded size; the declared
   length is the recorded one and that of the GET body; HEAD drops the body of probes and of every
   200, and keeps the text of any other answer for the protocol layer to drop.
   */
  lemma HeadMatchesGet(site: Site, ready: bool, shuttingDown: bool, path: ByteString)
    requires ValidTree(site.fs)
    ensures var get := Route(site, ready, shuttingDown, GET, path).outcome;
            var head := Route(site, ready, shuttingDown, HEAD, path).outcome;
            Agree(head, get, IsProbe(path) || get.response.status == OK)
  {
    hide ResolveAccesses, RootReadable;
    if path == LIVEZ || path == READYZ {
      ProbesAgree(OK, "ok\n");
      ProbesAgree(OK, "ready\n");
      ProbesAgree(SERVICE_UNAVAILABLE, "not ready\n");
    } else if shuttingDown {
      TextIsConsistent(SERVICE_UNAVAILABLE, "not ready\n", []);
    } else {
      PagesAgree(site.page);
      if site.contentRoot == None {
        TextIsConsistent(NOT_FOUND, "not found\n", []);
      } else {
        match Resolve(site.fs, site.contentRoot.value, path)
        case Success(file) =>
          ServedLength(site.fs, site.contentRoot.value, path);
          FilesAgree(file, site.mediaType(file.canonicalPath));
        case Failure(error) =>
          ErrorsAgree(error);
      }
    }
  }

  lemma ServedLength(fs: FileSystem, root: Path, p: ByteString)
    requires ValidTree(fs) && Resolve(fs, root, p).Success?
    ensures Resolve(fs, root, p).value.contentLength == |Resolve(fs, root, p).value.content|
  {
  }

  ghost predicate ContainedFile(fs: FileSystem, root: Path, file: Path, content: ByteString) {
    root <= file && CrossesNoLink(fs, file) && file in fs.nodes && fs.nodes[file] == Regular(content, true)
  }

  lemma StreamsComeFromFiles(site: Site, root: Path, ready: bool, shuttingDown: bool, verb: Verb, path: ByteString)
    requires ValidTree(site.fs) && site.contentRoot == Some(root)
    requires Route(site, ready, shuttingDown, verb, path).outcome.response.body.Stream?
    ensures Resolve(site.fs, root, path).Success?
    ensures Resolve(site.fs, root, path).value.content
         == Route(site, ready, shuttingDown, verb, path).outcome.response.body.content
  {
    hide Resolve, ResolveAccesses, RootReadable, TextOutcome, DefaultIndexOutcome;
  }

  /** A streamed body is the whole content of a readable regular file inside the root. */
  lemma StreamedBodiesAreContained(
    site: Site, root: Path, ready: bool, shuttingDown: bool, verb: Verb, path: ByteString)
    requires ValidTree(site.fs) && site.contentRoot == Some(root) && CanonicalRoot(site.fs, root)
    requires Route(site, ready, shuttingDown, verb, path).outcome.response.body.Stream?
    ensures exists file :: ContainedFile(site.fs, root, file,
                                         Route(site, ready, shuttingDown, verb, path).outcome.response.body.content)
  {
    StreamsComeFromFiles(site, root, ready, shuttingDown, verb, path);
    Containment(site.fs, root, path);
    var served := Resolve(site.fs, root, path).value;
    assert served.canonicalPath[..|served.canonicalPath|] == served.canonicalPath;
    assert ContainedFile(site.fs, root, served.canonicalPath, served.content);
  }

  lemma RootLookup(fs: FileSystem, root: Path)
    requires ValidTree(fs)
    ensures Resolve(fs, root, [SLASH]) == Serve(Probe(fs, root, INDEX))
  {
    OnlySlashIsTheRoot([SLASH]);
  }

  /** The welcome page is sent for `/` alone, when there is no root or the root has no index to be found. */
  lemma WelcomePage(site: Site, ready: bool, shuttingDown: bool, path: ByteString)
    requires ValidTree(site.fs)
    ensures Route(site, ready, shuttingDown, GET, path).outcome.response.body == Page(site.page)
       <==> && !shuttingDown
            && path == [SLASH]
            && (site.contentRoot.Some? ==> Probe(site.fs, site.contentRoot.value, INDEX) in {Missing, Folder, Other})
  {
    hide ResolveAccesses, RootReadable;
    PagesAgree(site.page);
    if path != LIVEZ && path != READYZ && !shuttingDown && site.contentRoot.Some? {
      RootLookup(site.fs, site.contentRoot.value);
      match Resolve(site.fs, site.contentRoot.value, path)
      case Success(_) =>
      case Failure(error) =>
        ErrorsAgree(error);
    }
  }

  /**
   The status of a GET, outside the probes and the drain, from the shape of its target and from what
   the lookup finds: 400 for malformed targets and for escapes, 404 for what is missing or no file, 500
   for I/O errors (and for a media type that no header can hold), 200 for files and the welcome page.
   */
  lemma StatusOfGet(site: Site, root: Path, ready: bool, path: ByteString)
    requires ValidTree(site.fs) && site.contentRoot == Some(root) && !IsProbe(path)
    ensures var status := Route(site, ready, false, GET, path).outcome.response.status;
            var found := Resolve(site.fs, root, path);
            && (status == BAD_REQUEST <==> !WellFormedTarget(path) || found == Failure(Escape))
            && (status == NOT_FOUND <==> found == Failure(NotFound) && path != [SLASH])
            && (status == INTERNAL_SERVER_ERROR <==>
                  || (found.Failure? && found.error.Io?)
                  || (found.Success? && !ValidValue(site.mediaType(found.value.canonicalPath))))
            && (status == OK <==>
                  || (found.Success? && ValidValue(site.mediaType(found.value.canonicalPath)))
                  || (found == Failure(NotFound) && path == [SLASH]))
  {
    WellFormedIffAccepted(path);
    RejectionIsLexical(path);
    PagesAgree(site.page);
    hide CandidatePaths, WellFormedTarget, DefaultIndexOutcome, ResolveAccesses;
    match Resolve(site.fs, root, path)
    case Success(_) =>
      assert CandidatePaths(path).Success?;
    case Failure(error) =>
      ErrorsAgree(error);
  }

  /**
   While draining: `/livez` is 200, `/readyz` 503, GET and HEAD elsewhere 503, other verbs 405, and in no
   case is the file system called.
   */
  lemma AnswersWhileDraining(site: Site, verb: Verb, path: ByteString)
    requires ValidTree(site.fs)
    ensures var routed := Route(site, false, true, verb, path);
            && routed.accesses == []
            && routed.outcome.response.status ==
                 if path == LIVEZ then OK
                 else if path != READYZ && verb.OtherVerb? then METHOD_NOT_ALLOWED
                 else SERVICE_UNAVAILABLE
  {
    hide ResolveAccesses, Resolve;
    TextIsConsistent(OK, "ok\n", []);
  }

  /** While draining, the answers do not depend on what the file system holds, nor on the page or the root. */
  lemma DrainIgnoresContent(a: Site, b: Site, verb: Verb, path: ByteString)
    requires ValidTree(a.fs) && ValidTree(b.fs)
    ensures Route(a, false, true, verb, path) == Route(b, false, true, verb, path)
  {
  }

  /** Exactly which requests call the file system, for every state of the flags. */
  lemma AccessesAreDue(site: Site, ready: bool, shuttingDown: bool, verb: Verb, path: ByteString)
    requires ValidTree(site.fs)
    ensures Route(site, ready, shuttingDown, verb, path).accesses != []
       <==> && site.contentRoot.Some?
            && path != LIVEZ
            && (if path == READYZ then ready else !verb.OtherVerb? && !shuttingDown && WellFormedTarget(path))
  {
    hide WellFormedTarget, ResolveAccesses;
    if site.contentRoot.Some? {
      LookupsAreConfined(site.fs, site.contentRoot.value, path);
    }
  }

  /** Apart from the readiness probe only the drain check answers 503, and it is what turns GET and HEAD away. */
  lemma OnlyTheDrainRefuses(site: Site, ready: bool, shuttingDown: bool, verb: Verb, path: ByteString)
    requires ValidTree(site.fs) && path != READYZ
    ensures Route(site, ready, shuttingDown, verb, path).outcome.response.status == SERVICE_UNAVAILABLE
       <==> shuttingDown && path != LIVEZ && !verb.OtherVerb?
  {
    hide Resolve, DefaultIndexOutcome;
    PagesAgree(site.page);
    if path == LIVEZ {
      LivenessIsOk(site, ready, shuttingDown, verb);
    } else if verb.OtherVerb? {
      AnswersWhileDraining(site, verb, path);
    } else if !shuttingDown && site.contentRoot.Some? {
      match Resolve(site.fs, site.contentRoot.value, path)
      case Success(_) =>
      case Failure(error) =>
        ErrorsAgree(error);
    }
  }

  /** Liveness never depends on the flags, the verb or the content. */
  lemma LivenessIsOk(site: Site, ready: bool, shuttingDown: bool, verb: Verb)
    requires ValidTree(site.fs)
    ensures Route(site, ready, shuttingDown, verb, LIVEZ).outcome.response.status == OK
    ensures Route(site, ready, shuttingDown, verb, LIVEZ).accesses == []
  {
    ProbesAgree(OK, "ok\n");
    assert ExtraHeaders([]) == [];
  }

  /** A request's answer depends on one flag only, so loading it is one step. */
  lemma RouteLoadsOneFlag(site: Site, ready: bool, shuttingDown: bool, verb: Verb, path: ByteString, flag: bool)
    requires ValidTree(site.fs)
    ensures path == READYZ ==>
              Route(site, ready, shuttingDown, verb, path) == Route(site, ready, flag, verb, path)
    ensures path != READYZ ==>
              Route(site, ready, shuttingDown, verb, path) == Route(site, flag, shuttingDown, verb, path)
  {
    assert READYZ != LIVEZ;
  }
}
