/** What clients are told: the exact answer on every branch of the router. */
module Answers {
  import opened ByteStrings
  import opened Errors
  import opened FileTree
  import opened Handler
  import opened Lookup
  import opened PercentDecoding
  import opened RequestTarget
  import opened Responses

  /** The names that requests and lookups are compared with, spelled out. */
  lemma NamesAreSpelled()
    ensures LIVEZ == Bytes("/livez") && READYZ == Bytes("/readyz") && INDEX == Bytes("index.html")
    ensures [SLASH] == Bytes("/") && CURRENT == Bytes(".") && PARENT == Bytes("..") && [PERCENT] == Bytes("%")
    ensures LOWER_DIGITS == Bytes("0123456789abcdef") && UPPER_DIGITS == Bytes("0123456789ABCDEF")
  {
  }

  /** The answer is this text, its body left out for HEAD. */
  ghost predicate IsProbeText(outcome: ResponseOutcome, verb: Verb, status: nat, text: string) {
    && outcome.response.status == status
    && outcome.response.headers == [ContentType("text/plain; charset=utf-8"), ContentLength(|text|)]
    && outcome.response.body == (if verb == HEAD then Empty else Full(text))
    && outcome.bodySize == |text|
  }

  /** Liveness is `ok`, for every verb, in every state of the server and its content. */
  lemma LivenessProbe(site: Site, ready: bool, shuttingDown: bool, verb: Verb)
    requires ValidTree(site.fs)
    ensures IsProbeText(Route(site, ready, shuttingDown, verb, LIVEZ).outcome, verb, 200, "ok\n")
  {
    TextHasItsHeaders(200, "ok\n", []);
  }

  /**
   Readiness is 200 exactly when the server is ready and there is no content root or the root can still
   be inspected and is a directory, and 503 otherwise; for every verb, draining or not.
   */
  lemma ReadinessProbe(site: Site, ready: bool, shuttingDown: bool, verb: Verb)
    requires ValidTree(site.fs)
    ensures var outcome := Route(site, ready, shuttingDown, verb, READYZ).outcome;
            if ready && (site.contentRoot.Some? ==>
                           var node := Metadata(site.fs, Render(site.contentRoot.value));
                           node.Success? && node.value.Directory?)
            then IsProbeText(outcome, verb, 200, "ready\n")
            else IsProbeText(outcome, verb, 503, "not ready\n")
  {
    hide Metadata;
    TextHasItsHeaders(200, "ready\n", []);
    TextHasItsHeaders(503, "not ready\n", []);
  }

  /** A server is ready with the root that startup found, as long as the tree stays as it was. */
  lemma PreparedRootIsReady(site: Site, configured: ByteString, shuttingDown: bool, verb: Verb)
    requires ValidTree(site.fs) && StartsWithSlash(configured)
    requires PrepareContentRoot(site.fs, configured) == Success(site.contentRoot)
    ensures Route(site, true, shuttingDown, verb, READYZ).outcome.response.status == 200
  {
    ReadinessProbe(site, true, shuttingDown, verb);
    PreparedRootIsCanonical(site.fs, configured);
  }

  /** Every other verb gets 405 outside the probes, with the verbs that are allowed, draining or not. */
  lemma OtherVerbs(site: Site, ready: bool, shuttingDown: bool, verb: Verb, path: ByteString)
    requires ValidTree(site.fs) && verb.OtherVerb? && !IsProbe(path)
    ensures var outcome := Route(site, ready, shuttingDown, verb, path).outcome;
            && outcome.response.status == 405
            && outcome.response.headers
               == [ContentType("text/plain; charset=utf-8"), ContentLength(19), Extra("allow", "GET, HEAD")]
            && outcome.response.body == Full("method not allowed\n")
            && outcome.bodySize == 19
  {
    var extra := [("allow", "GET, HEAD")];
    assert |"method not allowed\n"| == 19;
    assert ValidHeader(Extra("allow", "GET, HEAD"));
    TextHasItsHeaders(405, "method not allowed\n", extra);
    var headers := TextOutcome(405, "method not allowed\n", extra).response.headers;
    assert headers[2] == Extra(extra[0].0, extra[0].1);
  }

  /** While draining, GET and HEAD outside the probes are told that the server is not ready. */
  lemma Refusals(site: Site, ready: bool, verb: Verb, path: ByteString)
    requires ValidTree(site.fs) && !verb.OtherVerb? && !IsProbe(path)
    ensures IsText(Route(site, ready, true, verb, path).outcome, 503, "not ready\n")
  {
    TextHasItsHeaders(503, "not ready\n", []);
  }

  ghost predicate IsPage(outcome: ResponseOutcome, page: ByteString) {
    && outcome.response == Response(200, [ContentType("text/html; charset=utf-8"), ContentLength(|page|)], Page(page))
    && outcome.bodySize == |page|
  }

  lemma PageIsSent(page: ByteString)
    ensures IsPage(DefaultIndexOutcome(page, false), page)
  {
    ContentTypesAreValid();
    var typed := [ContentType("text/html; charset=utf-8")];
    assert [] + typed == typed;
    assert typed + [ContentLength(|page|)] == [ContentType("text/html; charset=utf-8"), ContentLength(|page|)];
  }

  /** Without a content root, the welcome page is all there is. */
  lemma GetWithoutRoot(site: Site, ready: bool, path: ByteString)
    requires ValidTree(site.fs) && site.contentRoot == None && !IsProbe(path)
    ensures var outcome := Route(site, ready, false, GET, path).outcome;
            if path == [SLASH] then IsPage(outcome, site.page) else IsText(outcome, 404, "not found\n")
  {
    hide DefaultIndexOutcome;
    PageIsSent(site.page);
    TextHasItsHeaders(404, "not found\n", []);
  }

  /** A file that is found is sent whole, with its guessed type and its length; a type no header can hold is a 500. */
  lemma GetFile(site: Site, root: Path, ready: bool, path: ByteString)
    requires ValidTree(site.fs) && site.contentRoot == Some(root) && !IsProbe(path)
    requires Resolve(site.fs, root, path).Success?
    ensures var outcome := Route(site, ready, false, GET, path).outcome;
            var file := Resolve(site.fs, root, path).value;
            var mediaType := site.mediaType(file.canonicalPath);
            if ValidValue(mediaType) then
              && outcome.response
                 == Response(200, [ContentType(mediaType), ContentLength(|file.content|)], Stream(file.content))
              && outcome.bodySize == |file.content|
            else IsText(outcome, 500, "internal server error\n")
  {
    hide ResolveAccesses;
    ServedLength(site.fs, root, path);
    hide Resolve;
    var file := Resolve(site.fs, root, path).value;
    FileIsSent(file, site.mediaType(file.canonicalPath));
  }

  lemma FileIsSent(file: ResolvedFile, mediaType: string)
    ensures var outcome := FileOutcome(file, mediaType, false);
            if ValidValue(mediaType) then
              && outcome.response
                 == Response(200, [ContentType(mediaType), ContentLength(file.contentLength)], Stream(file.content))
              && outcome.bodySize == file.contentLength
            else IsText(outcome, 500, "internal server error\n")
  {
    var typed := [ContentType(mediaType)];
    assert [] + typed == typed;
    assert typed + [ContentLength(file.contentLength)] == [ContentType(mediaType), ContentLength(file.contentLength)];
  }

  /** A lookup that fails is told by its status alone, but for the welcome page in place of a missing root index. */
  lemma GetNoFile(site: Site, root: Path, ready: bool, path: ByteString)
    requires ValidTree(site.fs) && site.contentRoot == Some(root) && !IsProbe(path)
    requires Resolve(site.fs, root, path).Failure?
    ensures var outcome := Route(site, ready, false, GET, path).outcome;
            match Resolve(site.fs, root, path).error
            case NotFound =>
              if path == [SLASH] then IsPage(outcome, site.page) else IsText(outcome, 404, "not found\n")
            case Io(_) => IsText(outcome, 500, "internal server error\n")
            case _ => IsText(outcome, 400, "bad request\n")
  {
    hide Resolve, ResolveAccesses, DefaultIndexOutcome;
    PageIsSent(site.page);
    TextHasItsHeaders(404, "not found\n", []);
    TextHasItsHeaders(500, "internal server error\n", []);
    TextHasItsHeaders(400, "bad request\n", []);
  }
}
