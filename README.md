# MailRelay API client — Dafny model

This project models the API client of the MailRelay plugin for October CMS
(class `MailRelay` in `api/MailRelay.php`). The client submits subscriptions
to the MailRelay service and turns cURL's raw output into a verdict:
`success()`, `getLastError()` and the value `post()` returns.

The model covers these parts of the client:

- the endpoint filled in from the account name and the request URL;
- the cURL options the client would set: URL, the three request headers with
  the API key, the timeout, peer verification, and a JSON body for 'post' only;
- the per-call reset of `last_error`, `request_successful` and `last_response`;
- the split of the raw content at `header_size` into header block and body;
- the header-line loop of `getHeadersAsArray`;
- body decoding, the three-tier status fallback and the four-rule verdict;
- the three-way return value of `makeRequest` and the accessors.

cURL is a function parameter `transport: CurlRequest -> Transport`. It maps
the options the client sets to what `curl_exec`, `curl_error` and
`curl_getinfo` report. `json_decode` and `json_encode` are function
parameters as well. The decoder returns `None` for anything that is not a PHP
array.

Files:

- `php.dfy` (module `Php`) models the PHP built-ins the client uses:
  - `empty()` on strings, which is also true for `"0"`;
  - `explode("\r\n", …)`, proved to be the inverse of `implode("\r\n", …)`;
  - `trim()` with PHP's default character list.
- `api.dfy` (module `Api`) holds the data model and the pure specification
  functions. `Interpret` composes them into the whole post-transfer
  behaviour. The class `MailRelay` has the source's fields and its state-changing
  methods; `getHeadersAsArray` and `findHTTPStatus`, which only compute from
  their arguments, are module-level. `MakeRequest` and `Post` are proved
  against `Interpret`.
- `properties.dfy` (module `ApiProperties`) holds lemmas about the model and
  worked scenarios. Each scenario is stated as the code behaves.

A Dafny `char` stands for one byte of the PHP string throughout.

Behaviour worth knowing, where the code does something other than its own
docblocks or names suggest (the model follows the code):

- `list($key, $value) = $line` (line 180) destructures a string, which assigns
  null to both names. Every kept header line therefore writes null under the
  key `""`. The header array is empty or `["" => null]`, and no header name is
  ever stored (`HeaderArray`, `StatusAndContentTypeBlock`). Malformed
  lines raise no error.
- A transfer that fails is mostly not reported with cURL's own text, although
  the docblock of `getLastError` (lines 52-56) says it describes the problem.
  Unless cURL's `http_code` is 2xx, the error written at line 218 is
  overwritten by one of the three `determineSuccess` messages. For a refused
  connection `getLastError()` is the unknown-error message (`ConnectionRefused`).
- A transfer can fail after a 2xx status line has arrived, so `curl_exec`
  returned false while `http_code` is 2xx. Then `success()` is true and
  `getLastError()` still returns cURL's text (`SuccessKeepsCurlError`).
- `getLastError()` returns false for `"0"` as well as for `""`.
- `errors.email` is only tested with `isset`. An empty list yields
  `"Error: "` (`EmptyEmailListStillReported`).
- A successful call returns `true`, even when the body decoded to an array,
  although the docblock of `post` (line 80) promises the decoded array or false.
- A 2xx status is checked before the timeout, so a transfer that completes
  with a 2xx status after the timeout has passed is a success. The timeout
  notice only ever follows a non-2xx status (`SlowCompletedTransfer`).

## Model

| member | source | states |
|---|---|---|
| `Php.IsEmptyString` | api/MailRelay.php:176 | `empty()` on a string is true exactly for "" and the one-character string "0" |
| `Php.IsEmptyOrNull` | api/MailRelay.php:199 | `empty()` on a value that is a string or null is true exactly for null, "" and "0" |
| `Php.Explode` | api/MailRelay.php:169 | explode yields at least one piece, and its first piece is a prefix of the input |
| `Php.ImplodeExplode` | api/MailRelay.php:169 | joining the pieces with CRLF gives back the input |
| `Php.ExplodePiecesHaveNoCrlf` | api/MailRelay.php:169 | no piece contains CRLF, so the input is split at every CRLF and only there |
| `Php.ExplodeImplode` | api/MailRelay.php:169 | explode undoes implode for CRLF-free pieces, so the pieces are unique |
| `Php.Trim` | api/MailRelay.php:174 | trim removes a strippable prefix and suffix, keeps the middle as a contiguous slice, and leaves no strippable character at either end |
| `Api.Endpoint` | api/MailRelay.php:28 | the endpoint is "https://", then the account name, then ".ipzmarketing.com/api/v1" |
| `Api.RequestUrl` | api/MailRelay.php:99 | the URL is the endpoint, one slash, then the API method |
| `Api.RequestHeaders` | api/MailRelay.php:102-106 | three headers: "Accept: application/json", "Content-Type: application/json", and "X-AUTH-TOKEN: " followed by the API key |
| `Api.CurlRequestFor` | api/MailRelay.php:102-121 | the request has the URL, the three headers with the API key, the timeout and peer verification; it keeps headers and returns the transfer; only 'post' sets POST with the encoded arguments |
| `Api.HeaderBlock` | api/MailRelay.php:221 | `substr($content, 0, $headerSize)` is a prefix of the content, `header_size` long unless the content is shorter |
| `Api.BodyOf` | api/MailRelay.php:222 | `substr($content, $headerSize)` is exactly what follows the header block |
| `Api.MarkerInWindow` | api/MailRelay.php:170 | the pattern matches within the first seven characters exactly when HTTP/1 or HTTP/2 starts at offset 0 or 1 |
| `Api.IsStatusLine` | api/MailRelay.php:170 | a line is dropped as a status line exactly when HTTP/1 or HTTP/2 starts at offset 0 or 1 |
| `Api.KeptLines` | api/MailRelay.php:169-178 | the lines that reach the assignment, never more than the input lines and none of them "" or "0" |
| `Api.ListKey` | api/MailRelay.php:180 | `list()` on a string assigns null to `$key`, which PHP stores as the array key "" |
| `Api.ListValue` | api/MailRelay.php:180 | `list()` on a string assigns null to `$value` |
| `Api.HeaderArray` | api/MailRelay.php:180-182 | the header array is empty when no line is kept and otherwise exactly `["" => null]` |
| `Api.GetHeadersAsArray` | api/MailRelay.php:165-186 | the loop keeps exactly the trimmed non-status, non-empty lines in order, and builds the array that `list()` on a string produces |
| `Api.ResponseAfter` | api/MailRelay.php:215-226 | after the split, the stored response always has the transfer info; it has a body and a header array exactly when the content was not false |
| `Api.DecodedBody` | api/MailRelay.php:195-204 | an empty, "0" or missing body gives false without decoding; any other body is decoded |
| `Api.FindHttpStatus` | api/MailRelay.php:268-279 | the status is cURL's http_code when present; otherwise the body's status when the body is non-empty and has one; otherwise it is 418 |
| `Api.FirstMessage` | api/MailRelay.php:247 | `[0]` of the e-mail list under `%s`: the first entry, or "" for an empty list |
| `Api.Judge` | api/MailRelay.php:237-258 | the first rule that applies decides: accepted exactly on a 2xx status; otherwise the e-mail message exactly when errors.email is set; otherwise the timeout notice with total_time exactly when timeout > 0 and total_time >= timeout; otherwise, and only then, the unknown-error message |
| `Api.ReturnValue` | api/MailRelay.php:132 | `true` exactly on success; otherwise the decoded array when there is one, else false |
| `Api.Interpret` | api/MailRelay.php:123-132 | success exactly on a 2xx status from `findHTTPStatus`; a failed call leaves the verdict `Judge` gives for the stored response and decoded body; a successful one leaves the error of the split (none or cURL's text); the return is `true` on success, else the decoded array, else false |
| `Api.LastError.IsFalsy` | api/MailRelay.php:60 | `?:` treats the stored error as false exactly for no error or a cURL text that is "" or "0"; no verdict message is falsy |
| `Api.MailRelay.constructor` | api/MailRelay.php:22-32 | the endpoint is filled in from the account name; the state starts unsuccessful, with no error and null response fields |
| `Api.MailRelay.GetApiEndpoint` | api/MailRelay.php:37-40 | the endpoint has the account name between scheme and host |
| `Api.MailRelay.Success` | api/MailRelay.php:47-50 | returns the stored flag; between calls, success never sits beside a verdict message, and failure never beside cURL's raw error |
| `Api.MailRelay.GetLastError` | api/MailRelay.php:58-61 | false exactly when the stored error is falsy in PHP ("" or "0"), otherwise the stored error |
| `Api.MailRelay.GetLastResponse` | api/MailRelay.php:68-71 | the stored body and header array are present together, and only with the transfer info |
| `Api.MailRelay.PrepareStateForRequest` | api/MailRelay.php:143-156 | the error is cleared, the flag is false, and headers, httpHeaders and body are all null |
| `Api.MailRelay.SetResponseState` | api/MailRelay.php:215-226 | on false content the cURL error is recorded; otherwise header array and body are set, and header block + body == content |
| `Api.MailRelay.FormatResponse` | api/MailRelay.php:195-204 | the response is stored, and the result is the decoded body as specified by `DecodedBody` |
| `Api.MailRelay.DetermineSuccess` | api/MailRelay.php:237-258 | applies `Judge`: success sets only the flag and keeps the error; a rejection writes the message and keeps the flag |
| `Api.MailRelay.MakeRequest` | api/MailRelay.php:97-133 | the new state and the result are `Interpret` of the transport's answer to the configured request; nothing from the old state is read; the invariant is re-established |
| `Api.MailRelay.Post` | api/MailRelay.php:82-85 | a 'post' request with a timeout that defaults to 10 seconds |
| `ApiProperties.EndpointInjective` | api/MailRelay.php:28 | different account names give different endpoints |
| `ApiProperties.RequestUrlShape` | api/MailRelay.php:99 | the URL is "https://" + account + ".ipzmarketing.com/api/v1/" + method |
| `ApiProperties.RequestUrlInjective` | api/MailRelay.php:99 | one client sends two methods to the same URL only if they are equal |
| `ApiProperties.SplitRecomposes` | api/MailRelay.php:220-222 | header block ++ body == content, and the block is the first header_size characters |
| `ApiProperties.ResponseAfterSplit` | api/MailRelay.php:217-223 | a completed transfer stores a body that recomposes the content; a failed one leaves the body and header array null |
| `ApiProperties.KeptLinesMembers` | api/MailRelay.php:169-178 | a string is kept exactly when it is the trim of an input line that is not a status line and does not trim to "" or "0" |
| `ApiProperties.KeptLinesAreTrimmed` | api/MailRelay.php:174-178 | no kept line is "" or "0", and none has a strippable character at either end |
| `ApiProperties.StatusAndBlankLinesDropped` | api/MailRelay.php:170-178 | a status line or a line that trims to "" or "0" adds nothing |
| `ApiProperties.KeptLineAppended` | api/MailRelay.php:174-182 | a line that passes both checks is appended in trimmed form |
| `ApiProperties.HeaderNamesNeverStored` | api/MailRelay.php:180-182 | no header name ever becomes a key of the header array |
| `ApiProperties.NoCarriageReturnNoCrlf` | api/MailRelay.php:169 | a string without a carriage return is a single line |
| `ApiProperties.ExampleBlockLines` | api/MailRelay.php:169 | the example block explodes into the status line, the header line and two empty lines |
| `ApiProperties.ExampleLinesKept` | api/MailRelay.php:169-182 | of those lines only the trimmed header line is kept |
| `ApiProperties.ExampleStatusLine` | api/MailRelay.php:170 | "HTTP/1.1 200 OK" is a status line |
| `ApiProperties.ContentTypeNotStatusLine` | api/MailRelay.php:170 | "Content-Type: application/json" carries no HTTP version marker in its first seven characters |
| `ApiProperties.ContentTypeUntrimmed` | api/MailRelay.php:174-176 | "Content-Type: application/json" is its own trim and is not empty |
| `ApiProperties.ExampleContentTypeLine` | api/MailRelay.php:170-176 | "Content-Type: application/json" is kept unchanged |
| `ApiProperties.StatusAndContentTypeBlock` | api/MailRelay.php:165-186 | the example block keeps only the content-type line, and the array has no "Content-Type" key, only "" |
| `ApiProperties.VerdictMessagesAreTruthy` | api/MailRelay.php:246-257 | none of the three verdict messages is falsy in PHP |
| `ApiProperties.SuccessExactlyOn2xx` | api/MailRelay.php:239-257 | success holds exactly on a 2xx status; after a failure the error is never cURL's raw text, and getLastError is not false |
| `ApiProperties.EmptyBodyIgnoresDecoder` | api/MailRelay.php:199-203 | with an empty, "0" or missing body, the outcome does not depend on the decoder |
| `ApiProperties.AbortedNeverReturnsArray` | api/MailRelay.php:132 | after a failed transfer `makeRequest` returns true or false, never an array |
| `ApiProperties.HttpCodeOverridesBodyStatus` | api/MailRelay.php:270-272 | a present http_code decides the status, whatever the body says |
| `ApiProperties.Created201WithEmptyBody` | api/MailRelay.php:241-243 | a 201 with an empty body is a success with `true` returned and no error |
| `ApiProperties.EmailAlreadyTaken` | api/MailRelay.php:246-248 | a 422 with errors.email gives "Error: has already been taken" and returns the decoded array |
| `ApiProperties.EmptyEmailListStillReported` | api/MailRelay.php:246-248 | an empty errors.email list still wins over the timeout rule, with the message "Error: " |
| `ApiProperties.SlowCompletedTransfer` | api/MailRelay.php:251-253 | a non-2xx transfer that took 12 s with a 10 s timeout gives the timeout notice carrying 12.0 (a 2xx one is a success, see `Judge`) |
| `ApiProperties.ConnectionRefused` | api/MailRelay.php:217-257 | a refused connection ends with the unknown-error message, a null body and false returned |
| `ApiProperties.SuccessKeepsCurlError` | api/MailRelay.php:218-243 | a failed transfer with a 2xx http_code is a success that still reports cURL's error |
| `ApiProperties.StatusFromBody` | api/MailRelay.php:274-278 | without an http_code, the body's status decides; a body that does not decode to an array gives 418 |
| `ApiProperties.UndecodableBodyOn200` | api/MailRelay.php:241-243 | a 200 with an undecodable body is still a success returning `true` |
| `ApiProperties.RepeatedPostSameOutcome` | api/MailRelay.php:143-156 | two identical posts to a deterministic transport return the same value; the state stays valid |

## Left out

- cURL itself (lines 108-128) is the `transport` parameter. The model does not cover the constructor's check that the cURL functions exist (lines 24-26). That check is an environment probe that throws an exception.
- `json_encode` and `json_decode` (lines 119, 200) are library calls. The model makes them parameters. A decoded array is reduced to the two fields the client reads: `status`, after the `(int)` cast, and `errors.email`, as a list of strings. An `errors.email` that is a string, in which case PHP would take its first character, is not modelled. Neither are entries that are not strings.
- The `%f` rendering of `total_time` in the timeout message (line 252) is float formatting. The model carries the elapsed seconds in `TimedOut(totalTime)` instead.
- `total_time` is a real number compared with the integer timeout; float rounding is not modelled.
- `curl_getinfo` always reports an array, so `!empty($response['headers'])` and the truthiness test at line 251 hold whenever the info is present. `http_code` is optional in the model so that the fallback chain of lines 270-278 can be reached.
- `substr` past the end of the content yields `""`, as in PHP 8; PHP 7 yields false there. Both count as empty at line 199.
- Strings are sequences of `char`, each standing for one byte. `header_size`, `substr` (lines 221-222) and `trim` (line 174) count bytes, and the model counts characters in their place; multi-byte encodings are not modelled.
- Post: PHP's default `$args = array()` (line 82) is not modelled. The arguments are a parameter of any type together with their encoder, so a caller passes the empty array explicitly.
- The constructor's `last_response` has no 'httpHeaders' key; the model stores it as null.
- Concurrency: the client is synchronous and single-call. There are no interleavings.
- components/Signup.php, Plugin.php, models/Settings.php and lang/en/lang.php are not part of this model. They are CMS registration, settings and localisation glue around one call of `post`.
