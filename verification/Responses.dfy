/** HTTP responses with the body size that is recorded for them. */
module Responses {
  import opened ByteStrings
  import opened Errors
  import opened Lookup

  datatype Header = ContentType(value: string) | ContentLength(size: nat) | Extra(name: string, text: string)

  /** In-memory text, the embedded page, a streamed file, or nothing. */
  datatype Body = Empty | Full(text: string) | Page(html: ByteString) | Stream(content: ByteString)

  datatype Response = Response(status: nat, headers: seq<Header>, body: Body)

  /** A response and the size of its body before any stripping for HEAD. */
  datatype ResponseOutcome = ResponseOutcome(response: Response, bodySize: nat)

  const OK := 200
  const BAD_REQUEST := 400
  const NOT_FOUND := 404
  const METHOD_NOT_ALLOWED := 405
  const INTERNAL_SERVER_ERROR := 500
  const SERVICE_UNAVAILABLE := 503

  const PLAIN_TEXT := "text/plain; charset=utf-8"
  const HTML_TEXT := "text/html; charset=utf-8"

  function BodyLength(body: Body): nat {
    match body
    case Empty => 0
    case Full(text) => |text|
    case Page(html) => |html|
    case Stream(content) => |content|
  }

  // ----- The response builder -----

  /** A header value may hold anything but control characters other than the tab. */
  predicate ValidValue(value: string) {
    forall c :: c in value ==> c == '\t' || (' ' <= c && c != 127 as char)
  }

  predicate ValidHeaderName(name: string) {
    && name != []
    && forall c :: c in name ==> 'a' <= c <= 'z' || 'A' <= c <= 'Z' || '0' <= c <= '9' || c in "!#$%&'*+-.^_`|~"
  }

  predicate ValidHeader(h: Header) {
    match h
    case ContentType(value) => ValidValue(value)
    case ContentLength(_) => true
    case Extra(name, text) => ValidHeaderName(name) && ValidValue(text)
  }

  /** A builder gives up for good on the first header it cannot hold. */
  datatype Builder = Building(status: nat, headers: seq<Header>) | GivenUp

  function WithHeader(builder: Builder, h: Header): Builder {
    match builder
    case Building(status, headers) => if ValidHeader(h) then Building(status, headers + [h]) else GivenUp
    case GivenUp => GivenUp
  }

  function WithBody(builder: Builder, body: Body): Option<Response> {
    match builder
    case Building(status, headers) => Some(Response(status, headers, body))
    case GivenUp => None
  }

  /** The generic response when another one cannot be built. */
  function InternalErrorResponse(): ResponseOutcome {
    var body := "internal server error\n";
    ResponseOutcome(
      Response(INTERNAL_SERVER_ERROR, [ContentType(PLAIN_TEXT), ContentLength(|body|)], Full(body)), |body|)
  }

  // ----- Text responses -----

  function ExtraHeaders(headers: seq<(string, string)>): seq<Header> {
    seq(|headers|, i requires 0 <= i < |headers| => Extra(headers[i].0, headers[i].1))
  }

  predicate AllValid(headers: seq<Header>) {
    forall i :: 0 <= i < |headers| ==> ValidHeader(headers[i])
  }

  function TextHeaders(body: string): seq<Header> {
    [ContentType(PLAIN_TEXT), ContentLength(|body|)]
  }

  /** A text response with all its headers in order, or the generic one if a header is not valid. */
  function TextOutcome(status: nat, body: string, headers: seq<(string, string)>): (outcome: ResponseOutcome)
    ensures outcome.response.body.Full? && outcome.bodySize == BodyLength(outcome.response.body)
  {
    if AllValid(ExtraHeaders(headers)) then
      ResponseOutcome(Response(status, TextHeaders(body) + ExtraHeaders(headers), Full(body)), |body|)
    else
      InternalErrorResponse()
  }

  /** The two headers and the body of a text without extra headers. */
  ghost predicate IsText(outcome: ResponseOutcome, status: nat, text: string) {
    && outcome.response
       == Response(status, [ContentType("text/plain; charset=utf-8"), ContentLength(|text|)], Full(text))
    && outcome.bodySize == |text|
  }

  /**
   A text response carries its status and text, first its type and length, and then every extra header in
   its place and no other; if one of them is not valid, it is the plain 500 instead.
   */
  lemma TextHasItsHeaders(status: nat, body: string, headers: seq<(string, string)>)
    ensures var outcome := TextOutcome(status, body, headers);
            if forall i :: 0 <= i < |headers| ==> ValidHeader(Extra(headers[i].0, headers[i].1))
            then
              && outcome.response.status == status
              && outcome.response.body == Full(body)
              && outcome.bodySize == |body|
              && |outcome.response.headers| == 2 + |headers|
              && outcome.response.headers[0] == ContentType("text/plain; charset=utf-8")
              && outcome.response.headers[1] == ContentLength(|body|)
              && forall i :: 0 <= i < |headers| ==>
                   outcome.response.headers[2 + i] == Extra(headers[i].0, headers[i].1)
            else IsText(outcome, INTERNAL_SERVER_ERROR, "internal server error\n")
  {
    var extra := ExtraHeaders(headers);
    assert AllValid(extra) <==> forall i :: 0 <= i < |headers| ==> ValidHeader(Extra(headers[i].0, headers[i].1)) by {
      assert forall i :: 0 <= i < |headers| ==> extra[i] == Extra(headers[i].0, headers[i].1);
    }
  }

  lemma ContentTypesAreValid()
    ensures ValidValue(PLAIN_TEXT) && ValidValue(HTML_TEXT)
  {
  }

  function StartText(status: nat, body: string): (builder: Builder)
    ensures builder == Building(status, TextHeaders(body))
  {
    ContentTypesAreValid();
    assert [] + [ContentType(PLAIN_TEXT)] + [ContentLength(|body|)] == TextHeaders(body);
    WithHeader(WithHeader(Building(status, []), ContentType(PLAIN_TEXT)), ContentLength(|body|))
  }

  method TextResponseWithHeaders(status: nat, body: string, headers: seq<(string, string)>)
    returns (outcome: ResponseOutcome)
    ensures outcome == TextOutcome(status, body, headers)
  {
    var builder := StartText(status, body);
    ghost var start := TextHeaders(body);
    ghost var extra := ExtraHeaders(headers);
    for i := 0 to |headers|
      invariant builder == if AllValid(extra[..i]) then Building(status, start + extra[..i]) else GivenUp
    {
      builder := WithHeader(builder, Extra(headers[i].0, headers[i].1));
      assert extra[..i + 1] == extra[..i] + [extra[i]];
      assert start + extra[..i + 1] == start + extra[..i] + [extra[i]];
      assert AllValid(extra[..i + 1]) <==> AllValid(extra[..i]) && ValidHeader(extra[i]);
    }
    assert extra[..|headers|] == extra;
    match WithBody(builder, Full(body))
    case Some(response) =>
      outcome := ResponseOutcome(response, |body|);
    case None =>
      outcome := InternalErrorResponse();
  }

  method TextResponse(status: nat, body: string) returns (outcome: ResponseOutcome)
    ensures outcome == TextOutcome(status, body, [])
  {
    outcome := TextResponseWithHeaders(status, body, []);
  }

  // ----- File and page responses -----

  function FileOutcome(file: ResolvedFile, contentType: string, headOnly: bool): ResponseOutcome {
    var body := if headOnly then Empty else Stream(file.content);
    var typed := WithHeader(Building(OK, []), ContentType(contentType));
    var builder := WithHeader(typed, ContentLength(file.contentLength));
    match WithBody(builder, body)
    case Some(response) => ResponseOutcome(response, file.contentLength)
    case None => InternalErrorResponse()
  }

  /** The embedded welcome page. */
  function DefaultIndexOutcome(page: ByteString, headOnly: bool): (outcome: ResponseOutcome)
    ensures !outcome.response.body.Stream?
  {
    var body := if headOnly then Empty else Page(page);
    var builder := WithHeader(WithHeader(Building(OK, []), ContentType(HTML_TEXT)), ContentLength(|page|));
    match WithBody(builder, body)
    case Some(response) => ResponseOutcome(response, |page|)
    case None => InternalErrorResponse()
  }
}
