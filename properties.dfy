/**
 * Properties of the MailRelay client model: the endpoint and request URL, the
 * header-line filter and what the header array really holds, the verdict and
 * its messages, the caller-visible results, and worked scenarios, each
 * stated for what the code does.
 */
module ApiProperties {
  import opened Php
  import opened Api

  // ---------------------------------------------------------------------
  // Endpoint and URL
  // ---------------------------------------------------------------------

  /** Different account names give different endpoints. */
  lemma EndpointInjective(a: string, b: string)
    requires Endpoint(a) == Endpoint(b)
    ensures a == b
  {
    assert |a| == |b|;
    var e := Endpoint(a);
    assert a == e[|EndpointScheme|..|EndpointScheme| + |a|];
  }

  /** The request URL names the account's endpoint and then the API method after one slash. */
  lemma RequestUrlShape(accountName: string, apiMethod: string)
    ensures RequestUrl(Endpoint(accountName), apiMethod)
            == "https://" + accountName + ".ipzmarketing.com/api/v1/" + apiMethod
  {
  }

  /** Two requests on one client go to the same URL exactly when they name the same method. */
  lemma RequestUrlInjective(endpoint: string, m1: string, m2: string)
    requires RequestUrl(endpoint, m1) == RequestUrl(endpoint, m2)
    ensures m1 == m2
  {
    var u := RequestUrl(endpoint, m1);
    assert m1 == u[|endpoint| + 1..];
  }

  // ---------------------------------------------------------------------
  // Raw-response split
  // ---------------------------------------------------------------------

  /** Header block and body put back together are the raw content; the block has `header_size` characters. */
  lemma SplitRecomposes(content: string, headerSize: nat)
    ensures HeaderBlock(content, headerSize) + BodyOf(content, headerSize) == content
    ensures headerSize <= |content| ==> |HeaderBlock(content, headerSize)| == headerSize
    ensures headerSize >= |content| ==> BodyOf(content, headerSize) == ""
  {
  }

  /** A completed transfer stores header block and body that recompose the content; a failed one stores no body. */
  lemma {:induction false} ResponseAfterSplit(outcome: Transport)
    ensures outcome.Received? ==>
              HeaderBlock(outcome.content, outcome.info.headerSize) + ResponseAfter(outcome).body.value
              == outcome.content
    ensures outcome.Aborted? ==> ResponseAfter(outcome).body == None && ResponseAfter(outcome).httpHeaders == None
  {
    if outcome.Received? {
      SplitRecomposes(outcome.content, outcome.info.headerSize);
    }
  }

  // ---------------------------------------------------------------------
  // Header lines
  // ---------------------------------------------------------------------

  /**
   * A string is among the kept header lines exactly when it is the trimmed form
   * of some input line that is not a status line and does not trim to "" or "0".
   */
  lemma {:induction false} KeptLinesMembers(lines: seq<string>, x: string)
    ensures x in KeptLines(lines) <==> exists l :: l in lines && IsKept(l) && Trim(l) == x
    decreases |lines|
  {
    if lines != [] {
      var init, last := lines[..|lines| - 1], lines[|lines| - 1];
      var added := if IsKept(last) then [Trim(last)] else [];
      assert KeptLines(lines) == KeptLines(init) + added;
      assert x in KeptLines(lines) <==> x in KeptLines(init) || x in added;
      KeptLinesMembers(init, x);
      assert forall l :: l in lines <==> l in init || l == last by {
        assert lines == init + [last];
      }
    }
  }

  /** Every kept header line is non-empty, not "0", and has nothing to trim at either end. */
  lemma KeptLinesAreTrimmed(lines: seq<string>)
    ensures forall x :: x in KeptLines(lines) ==>
              x != "" && x != "0" && !IsTrimmed(x[0]) && !IsTrimmed(x[|x| - 1])
  {
    forall x | x in KeptLines(lines)
      ensures x != "" && x != "0" && !IsTrimmed(x[0]) && !IsTrimmed(x[|x| - 1])
    {
      KeptLinesMembers(lines, x);
    }
  }

  /** A status line never contributes, and neither does a line that trims to nothing. */
  lemma StatusAndBlankLinesDropped(lines: seq<string>, l: string)
    requires IsStatusLine(l) || IsEmptyString(Trim(l))
    ensures KeptLines(lines + [l]) == KeptLines(lines)
  {
    assert (lines + [l])[..|lines|] == lines;
  }

  /** No header name ever becomes a key of the header array. */
  lemma HeaderNamesNeverStored(block: string, name: string)
    requires name != ""
    ensures name !in HeaderArray(KeptLines(Explode(block)))
  {
  }

  lemma NoCarriageReturnNoCrlf(s: string)
    requires '\r' !in s
    ensures !HasCrlf(s)
  {
    forall i | 0 <= i < |s| ensures !CrlfAt(s, i) {
      assert s[i] in s;
    }
  }

  /** The lines of the example block "HTTP/1.1 200 OK\r\nContent-Type: application/json\r\n\r\n". */
  lemma {:induction false} ExampleBlockLines(status: string, ct: string)
    requires '\r' !in status && '\r' !in ct
    ensures Explode(status + "\r\n" + ct + "\r\n" + "" + "\r\n" + "") == [status, ct, "", ""]
  {
    NoCarriageReturnNoCrlf(status);
    NoCarriageReturnNoCrlf(ct);
    NoCarriageReturnNoCrlf("");
    var tail := "" + "\r\n" + "";
    NoCrlfExplode("");
    ExplodeAtFirstCrlf("", "");
    assert Explode(tail) == ["", ""];
    ExplodeAtFirstCrlf(ct, tail);
    assert Explode(ct + "\r\n" + tail) == [ct, "", ""];
    ExplodeAtFirstCrlf(status, ct + "\r\n" + tail);
    assert status + "\r\n" + (ct + "\r\n" + tail) == status + "\r\n" + ct + "\r\n" + "" + "\r\n" + "";
  }

  /** A line that passes both checks adds its trimmed form at the end. */
  lemma KeptLineAppended(lines: seq<string>, l: string)
    requires IsKept(l)
    ensures KeptLines(lines + [l]) == KeptLines(lines) + [Trim(l)]
  {
    assert (lines + [l])[..|lines|] == lines;
  }

  /** Of a status line, a header line and two blank lines, only the trimmed header line is kept. */
  lemma {:induction false} ExampleLinesKept(status: string, ct: string)
    requires IsStatusLine(status) && IsKept(ct)
    ensures KeptLines([status, ct, "", ""]) == [Trim(ct)]
  {
    assert Trim("") == "";
    StatusAndBlankLinesDropped([], status);
    assert [] + [status] == [status];
    KeptLineAppended([status], ct);
    assert [status] + [ct] == [status, ct];
    StatusAndBlankLinesDropped([status, ct], "");
    assert [status, ct] + [""] == [status, ct, ""];
    StatusAndBlankLinesDropped([status, ct, ""], "");
    assert [status, ct, ""] + [""] == [status, ct, "", ""];
  }

  lemma ExampleStatusLine(status: string)
    requires status == "HTTP/1.1 200 OK"
    ensures IsStatusLine(status)
  {
    assert VersionTokenAt(status, 0) by { assert status[0..6] == "HTTP/1"; }
  }

  lemma ContentTypeNotStatusLine(ct: string)
    requires ct == "Content-Type: application/json"
    ensures !IsStatusLine(ct)
  {
    assert ct[0] == 'C' && ct[1] == 'o';
    assert ct[0..6][0] == ct[0] && ct[1..7][0] == ct[1];
  }

  lemma ContentTypeUntrimmed(ct: string)
    requires ct == "Content-Type: application/json"
    ensures Trim(ct) == ct && !IsEmptyString(ct)
  {
    assert ct[0] == 'C' && ct[|ct| - 1] == 'n';
    TrimUnchanged(ct);
  }

  lemma ExampleContentTypeLine(ct: string)
    requires ct == "Content-Type: application/json"
    ensures IsKept(ct) && Trim(ct) == ct
  {
    ContentTypeNotStatusLine(ct);
    ContentTypeUntrimmed(ct);
  }

  /**
   * The block "HTTP/1.1 200 OK\r\nContent-Type: application/json\r\n\r\n" keeps
   * only the content-type line, and the array built from it has the single key "".
   */
  lemma {:induction false} StatusAndContentTypeBlock(status: string, ct: string)
    requires status == "HTTP/1.1 200 OK" && ct == "Content-Type: application/json"
    ensures var block := status + "\r\n" + ct + "\r\n" + "" + "\r\n" + "";
            KeptLines(Explode(block)) == [ct] &&
            HeaderArray(KeptLines(Explode(block))) == map["" := None] &&
            "Content-Type" !in HeaderArray(KeptLines(Explode(block)))
  {
    assert '\r' !in status && '\r' !in ct;
    ExampleBlockLines(status, ct);
    ExampleStatusLine(status);
    ExampleContentTypeLine(ct);
    ExampleLinesKept(status, ct);
  }

  // ---------------------------------------------------------------------
  // Error messages and getLastError
  // ---------------------------------------------------------------------

  /** None of the three verdict messages is falsy, so getLastError never returns false after one. */
  lemma VerdictMessagesAreTruthy(e: LastError)
    requires e.IsVerdict()
    ensures !e.IsFalsy()
  {
    if e.EmailError? {
      assert |e.Text()| >= |EmailErrorPrefix|;
    }
  }

  // ---------------------------------------------------------------------
  // Verdict and caller-visible results
  // ---------------------------------------------------------------------

  /**
   * A request is successful exactly when the status is 2xx; a failed one always
   * leaves a verdict message, never the raw cURL error, so getLastError is not false.
   */
  lemma {:induction false} SuccessExactlyOn2xx(outcome: Transport, decode: string -> Option<JsonDoc>, timeout: int)
    ensures var it := Interpret(outcome, decode, timeout);
            (it.successful <==> 200 <= StatusAfter(outcome, decode) <= 299) &&
            (!it.successful ==> !it.lastError.CurlError? && !it.lastError.IsFalsy())
  {
    var it := Interpret(outcome, decode, timeout);
    if !it.successful {
      VerdictMessagesAreTruthy(it.lastError);
    }
  }

  /** An empty body ("", "0" or none) is never handed to the decoder: any two decoders agree. */
  lemma EmptyBodyIgnoresDecoder(outcome: Transport, d1: string -> Option<JsonDoc>,
                                d2: string -> Option<JsonDoc>, timeout: int)
    requires IsEmptyOrNull(ResponseAfter(outcome).body)
    ensures Interpret(outcome, d1, timeout) == Interpret(outcome, d2, timeout)
  {
  }

  /** After an aborted transfer the caller never receives an array: there is no body. */
  lemma AbortedNeverReturnsArray(curlError: string, info: TransferInfo,
                                 decode: string -> Option<JsonDoc>, timeout: int)
    ensures !Interpret(Aborted(curlError, info), decode, timeout).returned.ReturnedArray?
  {
  }

  /** A cURL http_code decides the status; the body's `status` is consulted only without one. */
  lemma HttpCodeOverridesBodyStatus(content: string, info: TransferInfo, decode: string -> Option<JsonDoc>)
    requires info.httpCode.Some?
    ensures StatusAfter(Received(content, info), decode) == info.httpCode.value
  {
  }

  // ---------------------------------------------------------------------
  // Scenarios
  // ---------------------------------------------------------------------

  /** A 201 with nothing after the headers: successful, `true` returned, no error. */
  lemma Created201WithEmptyBody(block: string, decode: string -> Option<JsonDoc>, timeout: int)
    ensures var it := Interpret(Received(block, TransferInfo(Some(201), |block|, 0.5)), decode, timeout);
            it.successful && it.returned == ReturnedTrue && it.lastError == NoError &&
            it.lastResponse.body == Some("")
  {
    assert BodyOf(block, |block|) == "";
  }

  /** A 422 whose body lists an e-mail error: the message is "Error: " and the first entry. */
  lemma EmailAlreadyTaken(block: string, body: string, decode: string -> Option<JsonDoc>, timeout: int)
    requires !IsEmptyString(body)
    requires decode(body) == Some(JsonDoc(None, Some(["has already been taken"])))
    ensures var it := Interpret(Received(block + body, TransferInfo(Some(422), |block|, 0.5)), decode, timeout);
            !it.successful && it.lastError == EmailError("has already been taken") &&
            it.lastError.Text() == EmailErrorPrefix + "has already been taken" &&
            it.returned == ReturnedArray(JsonDoc(None, Some(["has already been taken"])))
  {
    var doc := JsonDoc(None, Some(["has already been taken"]));
    var outcome := Received(block + body, TransferInfo(Some(422), |block|, 0.5));
    assert BodyOf(block + body, |block|) == body;
    var response := ResponseAfter(outcome);
    assert response.body == Some(body);
    assert DecodedBody(response.body, decode) == Some(doc);
    assert FindHttpStatus(response, Some(doc)) == 422;
    assert Judge(422, Some(doc), timeout, response.headers) == Rejected(EmailError("has already been taken"));
  }

  /** An e-mail error wins even over a status that would otherwise time out, and an empty list gives "Error: ". */
  lemma EmptyEmailListStillReported(block: string, body: string, decode: string -> Option<JsonDoc>)
    requires !IsEmptyString(body)
    requires decode(body) == Some(JsonDoc(None, Some([])))
    ensures var it := Interpret(Received(block + body, TransferInfo(Some(500), |block|, 30.0)), decode, 10);
            !it.successful && it.lastError.Text() == "Error: "
  {
    assert BodyOf(block + body, |block|) == body;
  }

  /** Completed after 12 seconds with a 10-second timeout and a non-2xx status: a timeout notice with 12.0. */
  lemma SlowCompletedTransfer(block: string, code: int, decode: string -> Option<JsonDoc>)
    requires !(200 <= code <= 299)
    ensures var it := Interpret(Received(block, TransferInfo(Some(code), |block|, 12.0)), decode, 10);
            !it.successful && it.lastError == TimedOut(12.0)
  {
    assert BodyOf(block, |block|) == "";
  }

  /**
   * A refused connection: no body is stored, and the cURL text is overwritten
   * by the unknown-error message (http_code 0, well under the timeout).
   */
  lemma ConnectionRefused(decode: string -> Option<JsonDoc>)
    ensures var it := Interpret(Aborted("Connection refused", TransferInfo(Some(0), 0, 0.01)), decode, 10);
            !it.successful && it.lastError == UnknownError && it.lastResponse.body == None &&
            it.returned == ReturnedFalse
  {
  }

  /** A transfer cut short after a 200 status line: success, yet getLastError reports cURL's text. */
  lemma SuccessKeepsCurlError(decode: string -> Option<JsonDoc>)
    ensures var it := Interpret(Aborted("Operation timed out", TransferInfo(Some(200), 0, 10.0)), decode, 10);
            it.successful && it.lastError == CurlError("Operation timed out") && !it.lastError.IsFalsy()
  {
  }

  /** Without an http_code the body's `status` decides; a body that does not decode falls back to 418. */
  lemma StatusFromBody(block: string, body: string, decode: string -> Option<JsonDoc>, code: int)
    requires !IsEmptyString(body)
    ensures decode(body) == Some(JsonDoc(Some(code), None)) ==>
              StatusAfter(Received(block + body, TransferInfo(None, |block|, 0.5)), decode) == code
    ensures decode(body) == None ==>
              StatusAfter(Received(block + body, TransferInfo(None, |block|, 0.5)), decode) == IndeterminateStatus
  {
    assert BodyOf(block + body, |block|) == body;
  }

  /** A 200 whose body does not decode is still a success; the decoded body only matters on failure. */
  lemma UndecodableBodyOn200(block: string, body: string, decode: string -> Option<JsonDoc>, timeout: int)
    requires decode(body) == None
    ensures var it := Interpret(Received(block + body, TransferInfo(Some(200), |block|, 0.5)), decode, timeout);
            it.successful && it.returned == ReturnedTrue
  {
  }

  // ---------------------------------------------------------------------
  // Repeated calls on one client
  // ---------------------------------------------------------------------

  /**
   * Posting twice with the same inputs to a deterministic transport leaves the
   * same state and returns the same value: nothing from the first call leaks.
   */
  method RepeatedPostSameOutcome<A>(client: MailRelay, apiMethod: string, args: A,
                                     encode: A -> string,
                                     transport: CurlRequest -> Transport,
                                     decode: string -> Option<JsonDoc>,
                                     timeout: int)
    returns (first: RequestResult, second: RequestResult, firstError: LastError, firstSuccess: bool)
    requires client.EndpointValid()
    modifies client
    ensures client.Valid()
    ensures first == second
    ensures firstError == client.lastError && firstSuccess == client.requestSuccessful
  {
    first := client.Post(apiMethod, args, encode, transport, decode, timeout);
    firstError, firstSuccess := client.lastError, client.requestSuccessful;
    second := client.Post(apiMethod, args, encode, transport, decode, timeout);
  }
}
