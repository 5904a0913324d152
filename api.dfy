/**
 * The MailRelay API client (class `MailRelay` of `api/MailRelay.php`): the
 * endpoint built from the account name, the per-call state reset, the split of
 * cURL's raw output into header block and body, the header-line filter, body
 * decoding, the HTTP-status fallback and the four-rule success verdict.
 *
 * cURL itself is a parameter: `transport` maps the request the client would
 * configure to what `curl_exec`, `curl_error` and `curl_getinfo` report.
 * `json_decode` and `json_encode` are parameters as well.
 */
module Api {
  import opened Php

  // ---------------------------------------------------------------------
  // Constants
  // ---------------------------------------------------------------------

  /** The text around `%s` in the endpoint template 'https://%s.ipzmarketing.com/api/v1'. */
  const EndpointScheme := "https://"
  const EndpointHost := ".ipzmarketing.com/api/v1"

  /** `MailRelay::TIMEOUT`, the default timeout of `post`, in seconds. */
  const DefaultTimeout := 10

  /** Status used when neither cURL nor the body says what the status was. */
  const IndeterminateStatus := 418

  const EmailErrorPrefix := "Error: "
  const UnknownErrorText := "Unknown error, call getLastResponse() to find out what happened."

  // ---------------------------------------------------------------------
  // Data model
  // ---------------------------------------------------------------------

  datatype HttpVerb = Get | Post | Put | Patch | Delete

  /**
   * The part of `curl_getinfo()` the client reads: `http_code` (absent or null
   * is None), `header_size` and `total_time` in seconds.
   */
  datatype TransferInfo = TransferInfo(httpCode: Option<int>, headerSize: nat, totalTime: real)

  /**
   * What cURL reports for one call: `curl_exec` returned false (with the text of
   * `curl_error`), or it returned the raw headers-plus-body string.
   */
  datatype Transport =
    | Aborted(curlError: string, info: TransferInfo)
    | Received(content: string, info: TransferInfo)

  /** The options the client sets on the cURL handle. */
  datatype CurlRequest = CurlRequest(
    url: string,
    httpHeader: seq<string>,
    includeHeader: bool,
    timeout: int,
    verifyPeer: bool,
    returnTransfer: bool,
    post: bool,
    postFields: Option<string>)

  /**
   * A decoded JSON body that is a PHP array, reduced to the fields the client
   * reads: `status` (after the `(int)` cast) and `errors.email`.
   */
  datatype JsonDoc = JsonDoc(status: Option<int>, errorsEmail: Option<seq<string>>)

  /**
   * `last_response`: 'headers' holds the `curl_getinfo()` record, 'httpHeaders'
   * the array built by `getHeadersAsArray` and 'body' the body string.
   */
  datatype Response = Response(
    headers: Option<TransferInfo>,
    httpHeaders: Option<map<string, Option<string>>>,
    body: Option<string>)

  /**
   * The value of `last_error`, tagged by where it came from. A timeout carries
   * the elapsed seconds instead of their `%f` rendering.
   */
  datatype LastError =
    | NoError
    | CurlError(text: string)
    | EmailError(first: string)
    | TimedOut(totalTime: real)
    | UnknownError
  {
    /** One of the three messages `determineSuccess` writes. */
    predicate IsVerdict() {
      EmailError? || TimedOut? || UnknownError?
    }

    /** The string stored in `last_error` (a timeout's text depends on float formatting). */
    function Text(): string
      requires !TimedOut?
    {
      match this
      case NoError => ""
      case CurlError(t) => t
      case EmailError(m) => EmailErrorPrefix + m
      case UnknownError => UnknownErrorText
    }

    /**
     * PHP falsiness of the stored string, as tested by `?:` in `getLastError`:
     * only "" and a cURL error text that is empty or "0" are falsy.
     */
    function IsFalsy(): (b: bool)
      ensures b <==> this == NoError || this == CurlError("") || this == CurlError("0")
    {
      if EmailError? then
        assert |Text()| >= |EmailErrorPrefix|;
        false
      else !TimedOut? && IsEmptyString(Text())
    }
  }

  /** The outcome of `determineSuccess`. */
  datatype Judgement = Accepted | Rejected(error: LastError)

  /** What `makeRequest` returns: `true`, the decoded array, or `false`. */
  datatype RequestResult = ReturnedTrue | ReturnedArray(doc: JsonDoc) | ReturnedFalse

  // ---------------------------------------------------------------------
  // Endpoint and request
  // ---------------------------------------------------------------------

  /** `sprintf('https://%s.ipzmarketing.com/api/v1', $account_name)`. */
  function Endpoint(accountName: string): (e: string)
    ensures |e| == |EndpointScheme| + |accountName| + |EndpointHost|
    ensures e[..|EndpointScheme|] == EndpointScheme
    ensures e[|EndpointScheme|..|EndpointScheme| + |accountName|] == accountName
    ensures e[|EndpointScheme| + |accountName|..] == EndpointHost
  {
    EndpointScheme + accountName + EndpointHost
  }

  /** `$this->api_endpoint . '/' . $method`. */
  function RequestUrl(endpoint: string, apiMethod: string): (url: string)
    ensures |url| == |endpoint| + 1 + |apiMethod|
    ensures url[..|endpoint|] == endpoint && url[|endpoint|] == '/'
    ensures url[|endpoint| + 1..] == apiMethod
  {
    endpoint + "/" + apiMethod
  }

  /** The three request headers, the last carrying the API key. */
  function RequestHeaders(apiKey: string): (h: seq<string>)
    ensures |h| == 3 && h[0] == "Accept: application/json" && h[1] == "Content-Type: application/json"
    ensures |h[2]| == 14 + |apiKey| && h[2][..14] == "X-AUTH-TOKEN: " && h[2][14..] == apiKey
  {
    ["Accept: application/json", "Content-Type: application/json", "X-AUTH-TOKEN: " + apiKey]
  }

  /** The cURL options `makeRequest` sets; only 'post' adds a JSON body. */
  function CurlRequestFor(url: string, apiKey: string, verifySsl: bool, verb: HttpVerb,
                          timeout: int, encodedArgs: string): (req: CurlRequest)
    ensures req.url == url && req.timeout == timeout && req.verifyPeer == verifySsl
    ensures req.httpHeader == ["Accept: application/json", "Content-Type: application/json", "X-AUTH-TOKEN: " + apiKey]
    ensures req.includeHeader && req.returnTransfer
    ensures req.post <==> verb == Post
    ensures req.postFields == (if verb == Post then Some(encodedArgs) else None)
  {
    CurlRequest(url, RequestHeaders(apiKey), true, timeout, verifySsl, true,
                verb == Post, if verb == Post then Some(encodedArgs) else None)
  }

  // ---------------------------------------------------------------------
  // Raw-response split and header lines
  // ---------------------------------------------------------------------

  /** The smaller of a and b. */
  function Min(a: int, b: int): (m: int) {
    if a <= b then a else b
  }

  /** `substr($content, 0, $headerSize)`: a prefix of the content, cut short when the content is. */
  function HeaderBlock(content: string, headerSize: nat): (block: string)
    ensures block <= content
    ensures |block| == Min(headerSize, |content|)
  {
    content[..Min(headerSize, |content|)]
  }

  /** `substr($content, $headerSize)`; empty when the header size reaches past the end. */
  function BodyOf(content: string, headerSize: nat): (body: string)
    ensures HeaderBlock(content, headerSize) + body == content
  {
    content[Min(headerSize, |content|)..]
  }

  /** The regular expression `HTTP\/[1-2]` matched at a fixed place. */
  predicate IsVersionToken(t: string) {
    t == "HTTP/1" || t == "HTTP/2"
  }

  /** `HTTP\/[1-2]` matches p at offset k. */
  predicate VersionTokenAt(p: string, k: int) {
    0 <= k <= |p| - 6 && IsVersionToken(p[k..k + 6])
  }

  /** `preg_match('/HTTP\/[1-2]/', $p) === 1`. */
  predicate MatchesVersion(p: string) {
    exists k | 0 <= k <= |p| - 6 :: VersionTokenAt(p, k)
  }

  /** Only offsets 0 and 1 of a line leave room for the marker in its first seven characters. */
  lemma {:induction false} MarkerInWindow(line: string)
    ensures MatchesVersion(line[..Min(7, |line|)]) <==> VersionTokenAt(line, 0) || VersionTokenAt(line, 1)
  {
    var p := line[..Min(7, |line|)];
    if MatchesVersion(p) {
      var k :| 0 <= k <= |p| - 6 && VersionTokenAt(p, k);
      assert k == 0 || k == 1;
      assert p[k..k + 6] == line[k..k + 6];
    }
    if VersionTokenAt(line, 0) {
      assert p[0..6] == line[0..6];
      assert VersionTokenAt(p, 0);
    }
    if VersionTokenAt(line, 1) {
      assert p[1..7] == line[1..7];
      assert VersionTokenAt(p, 1);
    }
  }

  /**
   * `preg_match` on `substr($line, 0, 7)`: a status line is one whose marker
   * starts at offset 0 or 1.
   */
  function IsStatusLine(line: string): (b: bool)
    ensures b <==> VersionTokenAt(line, 0) || VersionTokenAt(line, 1)
  {
    MarkerInWindow(line);
    MatchesVersion(line[..Min(7, |line|)])
  }

  /** A raw line that survives both `continue`s of the loop. */
  predicate IsKept(line: string) {
    !IsStatusLine(line) && !IsEmptyString(Trim(line))
  }

  /** The trimmed lines that reach the assignment of the loop, in order. */
  function KeptLines(lines: seq<string>): (kept: seq<string>)
    ensures |kept| <= |lines|
    ensures forall x | x in kept :: !IsEmptyString(x)
  {
    if lines == [] then []
    else
      var last := lines[|lines| - 1];
      KeptLines(lines[..|lines| - 1]) + (if IsKept(last) then [Trim(last)] else [])
  }

  /**
   * `list($key, $value) = $line` on a string: PHP assigns null to both names,
   * and a null array key is stored as "".
   */
  function ListKey(line: string): (key: string)
    ensures key == ""
  {
    ""
  }

  function ListValue(line: string): (value: Option<string>)
    ensures value == None
  {
    None
  }

  /**
   * The array `getHeadersAsArray` builds from the lines that reach the assignment:
   * every line writes null under the key "", so no header name is ever stored.
   */
  function HeaderArray(kept: seq<string>): (headers: map<string, Option<string>>)
    ensures kept == [] ==> headers == map[]
    ensures kept != [] ==> headers == map["" := None]
  {
    if kept == [] then map[]
    else
      var last := kept[|kept| - 1];
      HeaderArray(kept[..|kept| - 1])[ListKey(last) := ListValue(last)]
  }

  /** The last input line decides whether one more line is kept. */
  lemma KeptLinesSnoc(lines: seq<string>, i: nat)
    requires i < |lines|
    ensures KeptLines(lines[..i + 1]) ==
            KeptLines(lines[..i]) + (if IsKept(lines[i]) then [Trim(lines[i])] else [])
  {
    assert lines[..i + 1][..i] == lines[..i];
  }

  lemma HeaderArraySnoc(kept: seq<string>, line: string)
    ensures HeaderArray(kept + [line]) == HeaderArray(kept)[ListKey(line) := ListValue(line)]
  {
    assert (kept + [line])[..|kept|] == kept;
  }

  /**
   * `getHeadersAsArray($headersAsString)`: the loop over the CRLF-separated lines.
   * `kept` is the sequence of lines that reached the assignment.
   */
  method GetHeadersAsArray(headersAsString: string) returns (headers: map<string, Option<string>>, kept: seq<string>)
    ensures kept == KeptLines(Explode(headersAsString))
    ensures headers == HeaderArray(kept)
  {
    var lines := Explode(headersAsString);
    headers, kept := map[], [];
    var i := 0;
    while i < |lines|
      invariant 0 <= i <= |lines|
      invariant kept == KeptLines(lines[..i])
      invariant headers == HeaderArray(kept)
    {
      KeptLinesSnoc(lines, i);
      var line := lines[i];
      if !IsStatusLine(line) {
        line := Trim(line);
        if !IsEmptyString(line) {
          var key, value := ListKey(line), ListValue(line);
          HeaderArraySnoc(kept, line);
          headers := headers[key := value];
          kept := kept + [line];
        }
      }
      i := i + 1;
    }
    assert lines[..i] == lines;
  }

  // ---------------------------------------------------------------------
  // Response interpretation (pure)
  // ---------------------------------------------------------------------

  /** `last_response` after `setResponseState`, given what cURL reported. */
  function ResponseAfter(outcome: Transport): (r: Response)
    ensures r.headers == Some(outcome.info)
    ensures r.body.Some? <==> outcome.Received?
    ensures r.httpHeaders.Some? <==> outcome.Received?
  {
    match outcome
    case Aborted(_, info) => Response(Some(info), None, None)
    case Received(content, info) =>
      var block := HeaderBlock(content, info.headerSize);
      Response(Some(info), Some(HeaderArray(KeptLines(Explode(block)))),
               Some(BodyOf(content, info.headerSize)))
  }

  /** What `formatResponse` returns: the decoded array, or None for `false` or a non-array. */
  function DecodedBody(body: Option<string>, decode: string -> Option<JsonDoc>): (doc: Option<JsonDoc>)
    ensures IsEmptyOrNull(body) ==> doc == None
    ensures !IsEmptyOrNull(body) ==> doc == decode(body.value)
  {
    if !IsEmptyOrNull(body) then decode(body.value) else None
  }

  /** `findHTTPStatus`: cURL's http_code, else the body's status, else 418. */
  function FindHttpStatus(response: Response, formatted: Option<JsonDoc>): (status: int)
    ensures response.headers.Some? && response.headers.value.httpCode.Some? ==>
              status == response.headers.value.httpCode.value
    ensures !(response.headers.Some? && response.headers.value.httpCode.Some?) &&
            !IsEmptyOrNull(response.body) && formatted.Some? && formatted.value.status.Some? ==>
              status == formatted.value.status.value
    ensures !(response.headers.Some? && response.headers.value.httpCode.Some?) &&
            !(!IsEmptyOrNull(response.body) && formatted.Some? && formatted.value.status.Some?) ==>
              status == IndeterminateStatus
  {
    if response.headers.Some? && response.headers.value.httpCode.Some? then
      response.headers.value.httpCode.value
    else if !IsEmptyOrNull(response.body) && formatted.Some? && formatted.value.status.Some? then
      formatted.value.status.value
    else IndeterminateStatus
  }

  /** `$formattedResponse['errors']['email'][0]` as `%s` renders it ("" when missing). */
  function FirstMessage(messages: seq<string>): (m: string)
    ensures |messages| > 0 ==> m == messages[0]
    ensures messages == [] ==> m == ""
  {
    if |messages| > 0 then messages[0] else ""
  }

  /** `isset($formattedResponse['errors']['email'])`. */
  predicate HasEmailErrors(formatted: Option<JsonDoc>) {
    formatted.Some? && formatted.value.errorsEmail.Some?
  }

  /** A positive timeout that the transfer's `total_time` reached. */
  predicate RanOutOfTime(timeout: int, info: Option<TransferInfo>) {
    timeout > 0 && info.Some? && info.value.totalTime >= timeout as real
  }

  /**
   * `determineSuccess`: the first of four rules that applies decides: a 2xx
   * status, an e-mail error in the body, a timeout, and otherwise the unknown error.
   */
  function Judge(status: int, formatted: Option<JsonDoc>, timeout: int, info: Option<TransferInfo>): (j: Judgement)
    ensures j.Accepted? <==> 200 <= status <= 299
    ensures j.Rejected? ==> j.error.IsVerdict()
    ensures j.Rejected? && HasEmailErrors(formatted) ==>
              j.error == EmailError(FirstMessage(formatted.value.errorsEmail.value))
    ensures j.Rejected? && j.error.EmailError? ==> HasEmailErrors(formatted)
    ensures j.Rejected? && !HasEmailErrors(formatted) && RanOutOfTime(timeout, info) ==>
              j.error == TimedOut(info.value.totalTime)
    ensures j.Rejected? && j.error.TimedOut? ==> !HasEmailErrors(formatted) && RanOutOfTime(timeout, info)
    ensures j == Rejected(UnknownError) <==>
              !(200 <= status <= 299) && !HasEmailErrors(formatted) && !RanOutOfTime(timeout, info)
  {
    if 200 <= status <= 299 then Accepted
    else if HasEmailErrors(formatted) then
      Rejected(EmailError(FirstMessage(formatted.value.errorsEmail.value)))
    else if RanOutOfTime(timeout, info) then
      Rejected(TimedOut(info.value.totalTime))
    else Rejected(UnknownError)
  }

  /** `$isSuccess ? true : (is_array($formattedResponse) ? $formattedResponse : false)`. */
  function ReturnValue(isSuccess: bool, formatted: Option<JsonDoc>): (r: RequestResult)
    ensures r.ReturnedTrue? <==> isSuccess
    ensures r.ReturnedArray? <==> !isSuccess && formatted.Some?
    ensures r.ReturnedArray? ==> Some(r.doc) == formatted
  {
    if isSuccess then ReturnedTrue
    else if formatted.Some? then ReturnedArray(formatted.value)
    else ReturnedFalse
  }

  /** The state and return value one call of `makeRequest` leaves behind. */
  datatype Interpretation = Interpretation(
    successful: bool,
    lastError: LastError,
    lastResponse: Response,
    returned: RequestResult)

  /** The status `findHTTPStatus` settles on for what cURL reported. */
  function StatusAfter(outcome: Transport, decode: string -> Option<JsonDoc>): (status: int) {
    var response := ResponseAfter(outcome);
    FindHttpStatus(response, DecodedBody(response.body, decode))
  }

  /** The whole of `makeRequest` after `curl_exec`, as a function of cURL's report. */
  function Interpret(outcome: Transport, decode: string -> Option<JsonDoc>, timeout: int): (it: Interpretation)
    ensures it.lastResponse == ResponseAfter(outcome)
    ensures it.successful <==> 200 <= StatusAfter(outcome, decode) <= 299
    ensures !it.successful ==> it.lastError.IsVerdict()
    ensures !it.successful ==>
              Rejected(it.lastError) == Judge(StatusAfter(outcome, decode), DecodedBody(it.lastResponse.body, decode),
                                              timeout, it.lastResponse.headers)
    ensures it.successful ==> it.lastError == (if outcome.Aborted? then CurlError(outcome.curlError) else NoError)
    ensures it.returned == ReturnValue(it.successful, DecodedBody(it.lastResponse.body, decode))
  {
    var response := ResponseAfter(outcome);
    var formatted := DecodedBody(response.body, decode);
    var judgement := Judge(StatusAfter(outcome, decode), formatted, timeout, response.headers);
    var afterSplit := if outcome.Aborted? then CurlError(outcome.curlError) else NoError;
    Interpretation(
      judgement.Accepted?,
      if judgement.Accepted? then afterSplit else judgement.error,
      response,
      ReturnValue(judgement.Accepted?, formatted))
  }

  // ---------------------------------------------------------------------
  // The client
  // ---------------------------------------------------------------------

  class MailRelay {
    ghost const accountName: string
    const apiEndpoint: string
    const apiKey: string
    const verifySsl: bool

    var requestSuccessful: bool
    var lastError: LastError
    var lastResponse: Response

    /** The endpoint was filled in from the account name. */
    ghost predicate EndpointValid() {
      apiEndpoint == Endpoint(accountName)
    }

    /**
     * Between calls: a request judged unsuccessful (or none yet) never leaves
     * the raw cURL error behind, and a successful one never a verdict message;
     * body and header array are stored together, and only beside the transfer info.
     */
    ghost predicate Valid()
      reads this
    {
      EndpointValid() &&
      (requestSuccessful ==> lastError.NoError? || lastError.CurlError?) &&
      (!requestSuccessful ==> lastError.NoError? || lastError.IsVerdict()) &&
      (lastResponse.body.Some? <==> lastResponse.httpHeaders.Some?) &&
      (lastResponse.body.Some? ==> lastResponse.headers.Some?)
    }

    /** `__construct`: fills in the endpoint; `last_response` has null headers and body. */
    constructor (accountName: string, apiKey: string, verifySsl: bool := true)
      ensures Valid()
      ensures this.accountName == accountName && this.apiKey == apiKey && this.verifySsl == verifySsl
      ensures apiEndpoint == EndpointScheme + accountName + EndpointHost
      ensures !requestSuccessful && lastError == NoError
      ensures lastResponse == Response(None, None, None)
    {
      this.accountName := accountName;
      this.apiEndpoint := Endpoint(accountName);
      this.apiKey := apiKey;
      this.verifySsl := verifySsl;
      this.requestSuccessful := false;
      this.lastError := NoError;
      this.lastResponse := Response(None, None, None);
    }

    /** `getApiEndpoint`. */
    function GetApiEndpoint(): (e: string)
      requires EndpointValid()
      ensures |e| == |EndpointScheme| + |accountName| + |EndpointHost|
      ensures e[..|EndpointScheme|] == EndpointScheme
      ensures e[|EndpointScheme|..|EndpointScheme| + |accountName|] == accountName
      ensures e[|EndpointScheme| + |accountName|..] == EndpointHost
    {
      apiEndpoint
    }

    /** `success`. */
    function Success(): (ok: bool)
      reads this
      requires Valid()
      ensures ok == requestSuccessful
      ensures ok ==> !lastError.IsVerdict()
      ensures !ok ==> !lastError.CurlError?
    {
      requestSuccessful
    }

    /** `getLastError`: `$this->last_error ?: false`, with None standing for false. */
    function GetLastError(): (e: Option<LastError>)
      reads this
      ensures e.None? <==> lastError.IsFalsy()
      ensures e.Some? ==> e.value == lastError
    {
      if lastError.IsFalsy() then None else Some(lastError)
    }

    /** `getLastResponse`. */
    function GetLastResponse(): (r: Response)
      reads this
      requires Valid()
      ensures r.body.Some? <==> r.httpHeaders.Some?
      ensures r.body.Some? ==> r.headers.Some?
      ensures r == lastResponse
    {
      lastResponse
    }

    /** `prepareStateForRequest`: clears every field a previous call may have written. */
    method PrepareStateForRequest(verb: HttpVerb, apiMethod: string, url: string, timeout: int)
      returns (response: Response)
      modifies this
      ensures lastError == NoError && !requestSuccessful
      ensures lastResponse == Response(None, None, None) && response == lastResponse
    {
      lastError := NoError;
      requestSuccessful := false;
      lastResponse := Response(None, None, None);
      response := lastResponse;
    }

    /**
     * `setResponseState`: on a failed transfer records the cURL error; otherwise
     * splits the content at `header_size` into header array and body.
     */
    method SetResponseState(response: Response, outcome: Transport) returns (r: Response)
      requires response.headers == Some(outcome.info)
      modifies this`lastError
      ensures outcome.Aborted? ==> lastError == CurlError(outcome.curlError) && r == response
      ensures outcome.Received? ==> lastError == old(lastError)
      ensures outcome.Received? ==>
                r == response.(httpHeaders := ResponseAfter(outcome).httpHeaders,
                               body := Some(BodyOf(outcome.content, outcome.info.headerSize)))
      ensures outcome.Received? ==>
                HeaderBlock(outcome.content, outcome.info.headerSize) + r.body.value == outcome.content
    {
      r := response;
      match outcome {
        case Aborted(curlError, _) =>
          lastError := CurlError(curlError);
        case Received(content, _) =>
          var headerSize := response.headers.value.headerSize;
          var headers, _ := GetHeadersAsArray(HeaderBlock(content, headerSize));
          r := r.(httpHeaders := Some(headers));
          r := r.(body := Some(BodyOf(content, headerSize)));
      }
    }

    /** `formatResponse`: stores the response and decodes a non-empty body. */
    method FormatResponse(response: Response, decode: string -> Option<JsonDoc>)
      returns (formatted: Option<JsonDoc>)
      modifies this`lastResponse
      ensures lastResponse == response
      ensures formatted == DecodedBody(response.body, decode)
    {
      lastResponse := response;
      if !IsEmptyOrNull(response.body) {
        return decode(response.body.value);
      }
      return None;
    }

    /** `determineSuccess`: applies the four rules; only the first sets the flag. */
    method DetermineSuccess(response: Response, formatted: Option<JsonDoc>, timeout: int)
      returns (isSuccess: bool)
      modifies this`requestSuccessful, this`lastError
      ensures var j := Judge(FindHttpStatus(response, formatted), formatted, timeout, response.headers);
              isSuccess == j.Accepted? &&
              (j.Accepted? ==> requestSuccessful && lastError == old(lastError)) &&
              (j.Rejected? ==> requestSuccessful == old(requestSuccessful) && lastError == j.error)
    {
      var status := FindHttpStatus(response, formatted);
      if 200 <= status <= 299 {
        requestSuccessful := true;
        return true;
      }
      if HasEmailErrors(formatted) {
        lastError := EmailError(FirstMessage(formatted.value.errorsEmail.value));
        return false;
      }
      if RanOutOfTime(timeout, response.headers) {
        lastError := TimedOut(response.headers.value.totalTime);
        return false;
      }
      lastError := UnknownError;
      return false;
    }

    /**
     * `makeRequest`: resets the state, hands the configured request to cURL and
     * interprets what comes back. Nothing written by an earlier call is read.
     */
    method MakeRequest<A>(verb: HttpVerb, apiMethod: string, args: A, timeout: int,
                          encode: A -> string,
                          transport: CurlRequest -> Transport,
                          decode: string -> Option<JsonDoc>)
      returns (result: RequestResult)
      requires EndpointValid()
      modifies this
      ensures Valid()
      ensures var request := CurlRequestFor(RequestUrl(apiEndpoint, apiMethod), apiKey, verifySsl, verb, timeout, encode(args));
              var it := Interpret(transport(request), decode, timeout);
              requestSuccessful == it.successful && lastError == it.lastError &&
              lastResponse == it.lastResponse && result == it.returned
    {
      var url := RequestUrl(apiEndpoint, apiMethod);
      var response := PrepareStateForRequest(verb, apiMethod, url, timeout);
      var request := CurlRequestFor(url, apiKey, verifySsl, verb, timeout, encode(args));
      var outcome := transport(request);
      response := response.(headers := Some(outcome.info));
      response := SetResponseState(response, outcome);
      var formatted := FormatResponse(response, decode);
      var isSuccess := DetermineSuccess(response, formatted, timeout);
      result := ReturnValue(isSuccess, formatted);
    }

    /** `post`: a 'post' request; `timeout` defaults to ten seconds. */
    method Post<A>(apiMethod: string, args: A,
                   encode: A -> string,
                   transport: CurlRequest -> Transport,
                   decode: string -> Option<JsonDoc>,
                   timeout: int := DefaultTimeout)
      returns (result: RequestResult)
      requires EndpointValid()
      modifies this
      ensures Valid()
      ensures var request := CurlRequestFor(RequestUrl(apiEndpoint, apiMethod), apiKey, verifySsl, HttpVerb.Post, timeout, encode(args));
              var it := Interpret(transport(request), decode, timeout);
              requestSuccessful == it.successful && lastError == it.lastError &&
              lastResponse == it.lastResponse && result == it.returned
    {
      result := MakeRequest(HttpVerb.Post, apiMethod, args, timeout, encode, transport, decode);
    }
  }
}
