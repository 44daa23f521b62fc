/**
 * The HTTP gateway of app.py: the status codes and the error-message table,
 * the error envelope `make_error_response` builds (by updating that table in
 * place), the authentication check, and what `ping`, `start_model` and
 * `download_result` answer for each outcome of the cloud calls they make.
 *
 * The answers are first stated as pure decisions (`Reply` values), then
 * rendered against the current error table; the `Gateway` class follows the
 * endpoints' own control flow over its table field and is proved to agree
 * with the decisions.
 */
module App {
  import opened Wrappers
  import opened Text
  import opened AzureMl
  import Configure

  // ---------------------------------------------------------------------------
  // Status codes and the error-message table

  /** `HTTP_STATUS_CODE`. */
  datatype HttpStatus =
    | Ok | Created | Accepted
    | BadRequest | Unauthorized | Forbidden | NotFound | InternalServerError
  {
    /** The numeric status. */
    function Value(): int
    {
      match this
      case Ok => 200
      case Created => 201
      case Accepted => 202
      case BadRequest => 400
      case Unauthorized => 401
      case Forbidden => 403
      case NotFound => 404
      case InternalServerError => 500
    }

    /** The enum member's name, as an envelope's "code" field shows it. */
    function Name(): string
    {
      match this
      case Ok => "OK"
      case Created => "CREATED"
      case Accepted => "ACCEPTED"
      case BadRequest => "BAD_REQUEST"
      case Unauthorized => "UNAUTHORIZED"
      case Forbidden => "FORBIDDEN"
      case NotFound => "NOT_FOUND"
      case InternalServerError => "INTERNAL_SERVER_ERROR"
    }

    /** The error codes, the ones the error-message table has an entry for. */
    predicate IsError()
    {
      this in ErrorCodes
    }
  }

  const ErrorCodes: set<HttpStatus> := {BadRequest, Unauthorized, Forbidden, NotFound, InternalServerError}

  /** `ERROR_EXTRA_DETAILS`. */
  datatype ExtraDetails = InvalidModelId | InvalidZipFile | RunCancelled | InvalidRunId
  {
    function Value(): string
    {
      match this
      case InvalidModelId => "InvalidModelId"
      case InvalidZipFile => "InvalidZipFile"
      case RunCancelled => "RunCancelled"
      case InvalidRunId => "InvalidRunId"
    }
  }

  /** The JSON values an error envelope holds. */
  datatype JsonValue = JString(text: string) | JInt(number: int)

  /** The keys an error entry can hold. */
  datatype Field = DetailKey | TitleKey | CodeKey | StatusKey | ExtraDetailsKey
  {
    /** The key's name in the JSON object. */
    function JsonName(): string
    {
      match this
      case DetailKey => "detail"
      case TitleKey => "title"
      case CodeKey => "code"
      case StatusKey => "status"
      case ExtraDetailsKey => "extra_details"
    }
  }

  /** One entry of the error-message table, which is also the JSON envelope sent. */
  type ErrorEntry = map<Field, JsonValue>

  /** `ERROR_MESSAGES`: status code to entry. */
  type ErrorTable = map<HttpStatus, ErrorEntry>

  /** An entry as the table starts out: a detail and a title. */
  function Message(detail: string, title: string): (entry: ErrorEntry)
    ensures entry.Keys == {DetailKey, TitleKey}
  {
    map[DetailKey := JString(detail), TitleKey := JString(title)]
  }

  /** The detail and title the table starts with for an error code. */
  function InitialEntry(code: HttpStatus): (entry: ErrorEntry)
    requires code.IsError()
    ensures entry.Keys == {DetailKey, TitleKey}
  {
    match code
    case BadRequest => Message("Input file is not in correct format.", "InvalidInput")
    case Unauthorized =>
      Message(
        "Server failed to authenticate the request. Make sure the value of the "
        + Configure.ApiAuthSecretHeaderName + " header is populated.",
        "NoAuthenticationInformation")
    case Forbidden =>
      Message(
        "Server failed to authenticate the request. Make sure the value of the "
        + Configure.ApiAuthSecretHeaderName + " header is correct.",
        "AuthenticationFailed")
    case NotFound => Message("The specified resource does not exist.", "ResourceNotFound")
    case InternalServerError =>
      Message("The server encountered an internal error. Please retry the request.", "InternalError")
  }

  /** The table as the module defines it, before any response is made: an entry for exactly the error codes. */
  function InitialErrorMessages(): (table: ErrorTable)
    ensures table.Keys == ErrorCodes
    ensures forall code :: code in table ==> table[code].Keys == {DetailKey, TitleKey}
  {
    map code | code in ErrorCodes :: InitialEntry(code)
  }

  /**
   * What one `make_error_response(code, extra)` does to the entry for `code`:
   * sets "code" and "status", sets "extra_details" when one is passed, and
   * leaves every other key as it was. Nothing is ever removed.
   */
  function UpdatedEntry(entry: ErrorEntry, code: HttpStatus, extra: Option<ExtraDetails>): (updated: ErrorEntry)
    ensures updated.Keys == entry.Keys + {CodeKey, StatusKey} + (if extra.Some? then {ExtraDetailsKey} else {})
    ensures updated[CodeKey] == JString(code.Name()) && updated[StatusKey] == JInt(code.Value())
    ensures extra.Some? ==> updated[ExtraDetailsKey] == JString(extra.value.Value())
    ensures forall k :: k in entry && k != CodeKey && k != StatusKey && (extra.Some? ==> k != ExtraDetailsKey) ==>
      updated[k] == entry[k]
  {
    var stamped := entry[CodeKey := JString(code.Name())][StatusKey := JInt(code.Value())];
    if extra.Some? then stamped[ExtraDetailsKey := JString(extra.value.Value())] else stamped
  }

  // ---------------------------------------------------------------------------
  // Replies and their rendering

  /** What an endpoint answers, before it is rendered as an HTTP response. */
  datatype Reply =
    | Empty(status: HttpStatus)                            // `make_response("", status)`
    | RunId(id: string)                                    // 201, the submitted run's id as plain text
    | ResultZip(data: seq<byte>)                           // 200, the segmentation archive
    | Error(code: HttpStatus, extra: Option<ExtraDetails>) // `make_error_response(code, extra)`

  /** The status a reply is sent with. */
  function ReplyStatus(reply: Reply): HttpStatus
  {
    match reply
    case Empty(status) => status
    case RunId(_) => Created
    case ResultZip(_) => Ok
    case Error(code, _) => code
  }

  datatype Body = Text(text: string) | Bytes(data: seq<byte>) | Json(envelope: ErrorEntry)

  datatype Response = Response(status: int, contentType: string, body: Body)

  /** The content type a response made from a plain string gets by default. */
  const HtmlContentType: string := "text/html; charset=utf-8"
  const PlainTextContentType: string := "text/plain"
  const ZipContentType: string := "application/zip"
  const JsonContentType: string := "application/json"

  /** The table after the reply is rendered: an error reply updates its code's entry. */
  function AfterReply(table: ErrorTable, reply: Reply): (after: ErrorTable)
    ensures after.Keys == table.Keys
    ensures forall code :: code in table && !(reply.Error? && reply.code == code) ==> after[code] == table[code]
  {
    if reply.Error? && reply.code in table
    then table[reply.code := UpdatedEntry(table[reply.code], reply.code, reply.extra)]
    else table
  }

  /**
   * The HTTP response for a reply, given the table as it was before: an error
   * reply is sent as its updated table entry, in JSON, with its own status.
   */
  function Render(reply: Reply, table: ErrorTable): (response: Response)
    requires reply.Error? ==> reply.code in table
    ensures response.status == ReplyStatus(reply).Value()
    ensures response.body.Json? <==> reply.Error?
    ensures response.contentType == JsonContentType <==> reply.Error?
  {
    match reply
    case Empty(status) => Response(status.Value(), HtmlContentType, Text(""))
    case RunId(id) => Response(Created.Value(), PlainTextContentType, Text(id))
    case ResultZip(data) => Response(Ok.Value(), ZipContentType, Bytes(data))
    case Error(code, extra) =>
      Response(code.Value(), JsonContentType, Json(UpdatedEntry(table[code], code, extra)))
  }

  /**
   * An error envelope's "code" is the name of the status it is sent with, and
   * its "status" is that status's number.
   */
  lemma EnvelopeMatchesStatus(reply: Reply, table: ErrorTable)
    requires reply.Error? && reply.code in table
    ensures var response := Render(reply, table);
      && response.body.Json?
      && response.body.envelope[StatusKey] == JInt(response.status)
      && exists code: HttpStatus :: code.Value() == response.status
           && response.body.envelope[CodeKey] == JString(code.Name())
  {
    var response := Render(reply, table);
    assert reply.code.Value() == response.status;
  }

  /** The table after a sequence of rendered replies, oldest first. */
  function Replay(table: ErrorTable, replies: seq<Reply>): ErrorTable
  {
    if |replies| == 0 then table
    else AfterReply(Replay(table, replies[..|replies| - 1]), replies[|replies| - 1])
  }

  /** However many responses were made, the table keeps the codes it had. */
  lemma {:induction false} ReplayKeepsCodes(table: ErrorTable, replies: seq<Reply>)
    ensures Replay(table, replies).Keys == table.Keys
  {
    if |replies| > 0 {
      ReplayKeepsCodes(table, replies[..|replies| - 1]);
    }
  }

  /** `reply` is an error reply for `code` that passes extra details. */
  predicate SetsExtraDetails(reply: Reply, code: HttpStatus)
  {
    reply.Error? && reply.code == code && reply.extra.Some?
  }

  /** One response adds "extra_details" to an entry when it passes extra details for its code, and never removes it. */
  lemma AfterReplyExtraDetails(table: ErrorTable, reply: Reply, code: HttpStatus)
    requires code in table
    ensures code in AfterReply(table, reply)
    ensures ExtraDetailsKey in AfterReply(table, reply)[code] <==>
      ExtraDetailsKey in table[code] || SetsExtraDetails(reply, code)
  {
    if reply.Error? && reply.code == code {
      assert AfterReply(table, reply)[code] == UpdatedEntry(table[code], code, reply.extra);
    }
  }

  /**
   * Starting from an entry without it, the entry for an error code holds
   * "extra_details" exactly when some earlier response for that code passed
   * extra details: the key is added but never removed.
   */
  lemma {:induction false} ExtraDetailsSticky(table: ErrorTable, replies: seq<Reply>, code: HttpStatus)
    requires code in table && ExtraDetailsKey !in table[code]
    ensures code in Replay(table, replies)
    ensures ExtraDetailsKey in Replay(table, replies)[code] <==>
      exists i :: 0 <= i < |replies| && SetsExtraDetails(replies[i], code)
  {
    if |replies| == 0 {
      assert ExtraDetailsKey !in table[code];
    } else {
      var n := |replies| - 1;
      var prefix := replies[..n];
      ExtraDetailsSticky(table, prefix, code);
      AfterReplyExtraDetails(Replay(table, prefix), replies[n], code);
      if exists i :: 0 <= i < n && SetsExtraDetails(prefix[i], code) {
        var i :| 0 <= i < n && SetsExtraDetails(prefix[i], code);
        assert SetsExtraDetails(replies[i], code);
      }
      if exists i :: 0 <= i < |replies| && SetsExtraDetails(replies[i], code) {
        var i :| 0 <= i < |replies| && SetsExtraDetails(replies[i], code);
        if i < n {
          assert SetsExtraDetails(prefix[i], code);
        }
      }
    }
  }

  // ---------------------------------------------------------------------------
  // The envelope as intended, and how far the shared table drifts from it

  /**
   * `make_error_response` as evidently intended: the envelope is built from a
   * copy of the table entry, so the table itself never changes. From an
   * untouched entry the envelope holds the detail and title, the code and
   * status, and "extra_details" exactly when this call passes one.
   */
  function CorrectedErrorResponse(table: ErrorTable, code: HttpStatus, extra: Option<ExtraDetails>): (r: Result<Response, HttpStatus>)
    ensures r.Failure? <==> code !in table
    ensures r.Failure? ==> r.error == code
    ensures r.Success? ==>
      && r.value.status == code.Value()
      && r.value.contentType == JsonContentType
      && r.value.body.Json?
    ensures r.Success? && table[code].Keys == {DetailKey, TitleKey} ==>
      && r.value.body.envelope.Keys == {DetailKey, TitleKey, CodeKey, StatusKey} + (if extra.Some? then {ExtraDetailsKey} else {})
      && (ExtraDetailsKey in r.value.body.envelope <==> extra.Some?)
      && r.value.body.envelope[DetailKey] == table[code][DetailKey]
      && r.value.body.envelope[TitleKey] == table[code][TitleKey]
      && r.value.body.envelope[CodeKey] == JString(code.Name())
      && r.value.body.envelope[StatusKey] == JInt(code.Value())
  {
    if code !in table then Failure(code)
    else Success(Response(code.Value(), JsonContentType, Json(UpdatedEntry(table[code], code, extra))))
  }

  /**
   * The shape an entry keeps, however many responses were made: its
   * original detail and title, only the five known keys, and "code" and
   * "status" (when present) naming its own status.
   */
  predicate EntryInShape(entry: ErrorEntry, code: HttpStatus, original: ErrorEntry)
    requires DetailKey in original && TitleKey in original
  {
    && entry.Keys <= {DetailKey, TitleKey, CodeKey, StatusKey, ExtraDetailsKey}
    && DetailKey in entry && entry[DetailKey] == original[DetailKey]
    && TitleKey in entry && entry[TitleKey] == original[TitleKey]
    && (CodeKey in entry ==> entry[CodeKey] == JString(code.Name()))
    && (StatusKey in entry ==> entry[StatusKey] == JInt(code.Value()))
  }

  /** One response keeps every entry in shape. */
  lemma AfterReplyKeepsShape(table: ErrorTable, reply: Reply, code: HttpStatus, original: ErrorEntry)
    requires DetailKey in original && TitleKey in original
    requires code in table && EntryInShape(table[code], code, original)
    ensures code in AfterReply(table, reply)
    ensures EntryInShape(AfterReply(table, reply)[code], code, original)
  {
    if reply.Error? && reply.code == code {
      var updated := UpdatedEntry(table[code], code, reply.extra);
      assert AfterReply(table, reply)[code] == updated;
      assert updated[DetailKey] == table[code][DetailKey];
      assert updated[TitleKey] == table[code][TitleKey];
    }
  }

  /** Every entry stays in shape, however many responses were made. */
  lemma {:induction false} ReplayKeepsShape(table: ErrorTable, replies: seq<Reply>, code: HttpStatus)
    requires code in table && table[code].Keys == {DetailKey, TitleKey}
    ensures code in Replay(table, replies)
    ensures EntryInShape(Replay(table, replies)[code], code, table[code])
  {
    if |replies| > 0 {
      var n := |replies| - 1;
      ReplayKeepsShape(table, replies[..n], code);
      AfterReplyKeepsShape(Replay(table, replies[..n]), replies[n], code, table[code]);
    }
  }

  /** Stamping an entry in shape gives what stamping its untouched original gives, but for "extra_details". */
  lemma StampedEntriesAgree(entry: ErrorEntry, original: ErrorEntry, code: HttpStatus, extra: Option<ExtraDetails>)
    requires original.Keys == {DetailKey, TitleKey}
    requires EntryInShape(entry, code, original)
    ensures var sent := UpdatedEntry(entry, code, extra);
      var intended := UpdatedEntry(original, code, extra);
      && (forall k :: k != ExtraDetailsKey ==> (k in sent <==> k in intended) && (k in sent ==> sent[k] == intended[k]))
      && ((extra.Some? || ExtraDetailsKey !in entry) ==> sent == intended)
  {
    var sent := UpdatedEntry(entry, code, extra);
    var intended := UpdatedEntry(original, code, extra);
    forall k | k != ExtraDetailsKey
      ensures (k in sent <==> k in intended) && (k in sent ==> sent[k] == intended[k])
    {
      match k
      case DetailKey =>
      case TitleKey =>
      case CodeKey =>
      case StatusKey =>
    }
    if extra.Some? || ExtraDetailsKey !in entry {
      assert sent.Keys == intended.Keys;
    }
  }

  /**
   * Starting from an entry with just a detail and a title (as the module
   * defines them), whatever the gateway answered before, an error response
   * for `code` differs from the intended one at most in "extra_details".
   */
  lemma DriftOnlyInExtraDetails(table: ErrorTable, replies: seq<Reply>, code: HttpStatus, extra: Option<ExtraDetails>)
    requires code in table && table[code].Keys == {DetailKey, TitleKey}
    ensures code in Replay(table, replies)
    ensures var sent := Render(Error(code, extra), Replay(table, replies));
      var intended := CorrectedErrorResponse(table, code, extra);
      && intended.Success?
      && sent.status == intended.value.status
      && sent.contentType == intended.value.contentType
      && (forall k :: k != ExtraDetailsKey ==>
            (k in sent.body.envelope <==> k in intended.value.body.envelope)
            && (k in sent.body.envelope ==> sent.body.envelope[k] == intended.value.body.envelope[k]))
  {
    ReplayKeepsShape(table, replies, code);
    var now := Replay(table, replies);
    StampedEntriesAgree(now[code], table[code], code, extra);
    assert Render(Error(code, extra), now).body.envelope == UpdatedEntry(now[code], code, extra);
  }

  /**
   * And not even there when this call passes extra details, or when no
   * earlier call for `code` did: the response is then the intended one.
   */
  lemma NoDriftUnlessStale(table: ErrorTable, replies: seq<Reply>, code: HttpStatus, extra: Option<ExtraDetails>)
    requires code in table && table[code].Keys == {DetailKey, TitleKey}
    requires extra.Some? || forall i :: 0 <= i < |replies| ==> !SetsExtraDetails(replies[i], code)
    ensures code in Replay(table, replies)
    ensures CorrectedErrorResponse(table, code, extra) == Success(Render(Error(code, extra), Replay(table, replies)))
  {
    ReplayKeepsShape(table, replies, code);
    var now := Replay(table, replies);
    if extra.None? {
      ExtraDetailsSticky(table, replies, code);
      assert ExtraDetailsKey !in now[code];
    }
    StampedEntriesAgree(now[code], table[code], code, extra);
    var envelope := UpdatedEntry(table[code], code, extra);
    assert UpdatedEntry(now[code], code, extra) == envelope;
    assert Render(Error(code, extra), now) == Response(code.Value(), JsonContentType, Json(envelope));
    assert CorrectedErrorResponse(table, code, extra) == Success(Response(code.Value(), JsonContentType, Json(envelope)));
  }

  /**
   * As written, details leak from one response to the next: after a response
   * for `code` that passes `detail` (say a cancelled run reported as a 500
   * with "RunCancelled"), the next response for `code` that passes none
   * still carries it, while the intended envelope has no "extra_details".
   */
  lemma DetailsOutliveTheirCall(table: ErrorTable, code: HttpStatus, detail: ExtraDetails)
    requires code in table && table[code].Keys == {DetailKey, TitleKey}
    ensures var after := Replay(table, [Error(code, Some(detail))]);
      && code in after
      && var sent := Render(Error(code, None), after).body.envelope;
      && ExtraDetailsKey in sent
      && sent[ExtraDetailsKey] == JString(detail.Value())
      && ExtraDetailsKey !in CorrectedErrorResponse(table, code, None).value.body.envelope
  {
    var first := Error(code, Some(detail));
    var none: seq<Reply> := [first][..0];
    assert none == [];
    assert Replay(table, none) == table;
    var after := Replay(table, [first]);
    assert after == AfterReply(Replay(table, none), first);
    var entry := after[code];
    assert entry == UpdatedEntry(table[code], code, Some(detail));
    var sent := UpdatedEntry(entry, code, None);
    assert Render(Error(code, None), after).body.envelope == sent;
    assert sent[ExtraDetailsKey] == entry[ExtraDetailsKey];
  }

  // ---------------------------------------------------------------------------
  // Decisions

  const ResourceNotFoundMessage: string := "(UserError) Resource not found"
  const ModelNotFoundPrefix: string := "ModelNotFound"
  const BadZipFileMarker: string := "zipfile.BadZipFile"

  /**
   * A run as `workspace.get_run` returns it: its status, whether asking it
   * for its status again (`run.get_status()`, for the log line) raises, the
   * driver log as reading it turns out (an exception, no such file, or its
   * text), and the result archive as downloading it turns out.
   */
  datatype Run = Run(
    status: RunStatus,
    statusQuery: Option<Exception>,
    driverLog: Result<Option<string>, Exception>,
    result: Result<seq<byte>, Exception>)

  /** `is_authenticated_request`: 401 without the header, 403 with a wrong one, nothing with the secret. */
  function AuthCheck(header: Option<string>, secret: string): (refusal: Option<Reply>)
    ensures refusal.None? <==> header == Some(secret)
    ensures header.None? ==> refusal == Some(Error(Unauthorized, None))
    ensures header.Some? && header.value != secret ==> refusal == Some(Error(Forbidden, None))
  {
    if header.None? then Some(Error(Unauthorized, None))
    else if header.value != secret then Some(Error(Forbidden, None))
    else None
  }

  /** `ping`: 200 with an empty body once authenticated. */
  function PingReply(header: Option<string>, secret: string): (reply: Reply)
    ensures AuthCheck(header, secret).Some? ==> reply == AuthCheck(header, secret).value
    ensures AuthCheck(header, secret).None? ==> reply == Empty(Ok)
  {
    var refusal := AuthCheck(header, secret);
    if refusal.Some? then refusal.value else Empty(Ok)
  }

  /** The `except` clauses of `start_model`. */
  function SubmissionErrorReply(e: Exception): (reply: Reply)
    ensures reply == Error(NotFound, Some(InvalidModelId)) <==>
      e.kind == WebserviceException && StartsWith(e.message, ModelNotFoundPrefix)
    ensures reply != Error(NotFound, Some(InvalidModelId)) ==> reply == Error(InternalServerError, None)
  {
    if e.kind == WebserviceException && StartsWith(e.message, ModelNotFoundPrefix)
    then Error(NotFound, Some(InvalidModelId))
    else Error(InternalServerError, None)
  }

  /**
   * `start_model`: after authentication, the submission's run id as plain
   * text with 201, or its exception mapped to 404 `InvalidModelId` or 500.
   * `submit` stands for `submit_for_inference` on the model id and the body.
   */
  function StartModelReply(
    header: Option<string>, secret: string, modelId: string, imageData: seq<byte>,
    submit: (string, seq<byte>) -> Result<string, Exception>): (reply: Reply)
    ensures AuthCheck(header, secret).Some? ==> reply == AuthCheck(header, secret).value
    ensures AuthCheck(header, secret).None? && submit(modelId, imageData).Success? ==>
      reply == RunId(submit(modelId, imageData).value)
    ensures AuthCheck(header, secret).None? && submit(modelId, imageData).Failure? ==>
      reply == SubmissionErrorReply(submit(modelId, imageData).error)
    ensures reply.Error? ==> reply.code.IsError()
  {
    var refusal := AuthCheck(header, secret);
    if refusal.Some? then refusal.value
    else match submit(modelId, imageData)
      case Success(runId) => RunId(runId)
      case Failure(e) => SubmissionErrorReply(e)
  }

  /** The `except` clauses of `download_result`. */
  function ServiceErrorReply(e: Exception): (reply: Reply)
    ensures reply == Error(NotFound, Some(InvalidRunId)) <==>
      e.kind == ServiceException && e.message == ResourceNotFoundMessage
    ensures reply != Error(NotFound, Some(InvalidRunId)) ==> reply == Error(InternalServerError, None)
  {
    if e.kind == ServiceException && e.message == ResourceNotFoundMessage
    then Error(NotFound, Some(InvalidRunId))
    else Error(InternalServerError, None)
  }

  /** A failed run's driver log shows the archive could not be opened. */
  predicate ShowsBadZipFile(run: Run)
  {
    run.driverLog.Success? && run.driverLog.value.Some? && Contains(run.driverLog.value.value, BadZipFileMarker)
  }

  /** The run is no longer running, and asking it for its status did not raise. */
  predicate Settled(run: Run, running: set<RunStatus>)
  {
    run.status !in running && run.statusQuery.None?
  }

  /** The body of `download_result`'s `try` once the run is found. */
  function RunReply(run: Run, running: set<RunStatus>): (reply: Reply)
    ensures reply == Empty(Accepted) <==> run.status in running
    ensures run.status !in running && run.statusQuery.Some? ==> reply == ServiceErrorReply(run.statusQuery.value)
    ensures reply.ResultZip? <==> Settled(run, running) && run.status == Completed && run.result.Success?
    ensures reply.ResultZip? ==> reply.data == run.result.value
    ensures reply == Error(BadRequest, Some(InvalidZipFile)) <==>
      Settled(run, running) && run.status == Failed && ShowsBadZipFile(run)
    ensures reply == Error(InternalServerError, Some(RunCancelled)) <==>
      Settled(run, running) && run.status == Canceled
    ensures (Settled(run, running) && run.status != Completed && run.status != Canceled
             && !(run.status == Failed && (ShowsBadZipFile(run) || run.driverLog.Failure?))) ==>
      reply == Error(InternalServerError, None)
    ensures Settled(run, running) && run.status == Failed && run.driverLog.Failure? ==>
      reply == ServiceErrorReply(run.driverLog.error)
    ensures Settled(run, running) && run.status == Completed && run.result.Failure? ==>
      reply == ServiceErrorReply(run.result.error)
    ensures reply.Error? ==> reply.code.IsError()
  {
    if run.status in running then Empty(Accepted)
    else if run.statusQuery.Some? then ServiceErrorReply(run.statusQuery.value)
    else if run.status != Completed then
      if run.status == Failed && run.driverLog.Failure? then ServiceErrorReply(run.driverLog.error)
      else if run.status == Failed && ShowsBadZipFile(run) then Error(BadRequest, Some(InvalidZipFile))
      else if run.status == Canceled then Error(InternalServerError, Some(RunCancelled))
      else Error(InternalServerError, None)
    else match run.result
      case Success(data) => ResultZip(data)
      case Failure(e) => ServiceErrorReply(e)
  }

  /**
   * `download_result`: after authentication, look the run up (`getRun`
   * stands for `workspace.get_run`) and answer for it, or map the lookup's
   * exception.
   */
  function DownloadResultReply(
    header: Option<string>, secret: string, runId: string,
    getRun: string -> Result<Run, Exception>, running: set<RunStatus>): (reply: Reply)
    ensures AuthCheck(header, secret).Some? ==> reply == AuthCheck(header, secret).value
    ensures AuthCheck(header, secret).None? && getRun(runId).Success? ==>
      reply == RunReply(getRun(runId).value, running)
    ensures AuthCheck(header, secret).None? && getRun(runId).Failure? ==>
      reply == ServiceErrorReply(getRun(runId).error)
    ensures reply.Error? ==> reply.code.IsError()
  {
    var refusal := AuthCheck(header, secret);
    if refusal.Some? then refusal.value
    else match getRun(runId)
      case Success(run) => RunReply(run, running)
      case Failure(e) => ServiceErrorReply(e)
  }

  /** A run that has not started yet is polled with 202 when "NotStarted" counts as running. */
  lemma NotStartedIsAccepted(run: Run, running: set<RunStatus>)
    requires run.status == NotStarted && NotStarted in running
    ensures RunReply(run, running) == Empty(Accepted)
    ensures Render(RunReply(run, running), map[]) == Response(202, HtmlContentType, Text(""))
  {
  }

  /**
   * Every endpoint checks authentication first: a refused request is answered
   * the same whatever the submission or the run lookup would have done.
   */
  lemma RefusalPrecedesCloudCalls(
    header: Option<string>, secret: string, modelId: string, imageData: seq<byte>, runId: string,
    submit: (string, seq<byte>) -> Result<string, Exception>, otherSubmit: (string, seq<byte>) -> Result<string, Exception>,
    getRun: string -> Result<Run, Exception>, otherGetRun: string -> Result<Run, Exception>,
    running: set<RunStatus>)
    requires header != Some(secret)
    ensures StartModelReply(header, secret, modelId, imageData, submit) ==
      StartModelReply(header, secret, modelId, imageData, otherSubmit)
    ensures DownloadResultReply(header, secret, runId, getRun, running) ==
      DownloadResultReply(header, secret, runId, otherGetRun, running)
    ensures PingReply(header, secret) == StartModelReply(header, secret, modelId, imageData, submit)
    ensures PingReply(header, secret) == DownloadResultReply(header, secret, runId, getRun, running)
    ensures StartModelReply(header, secret, modelId, imageData, submit).Error?
  {
  }

  /** The success codes have no entry in the table, so an error response for one of them fails. */
  lemma SuccessCodesHaveNoEntry(code: HttpStatus)
    requires code in {Ok, Created, Accepted}
    ensures code !in InitialErrorMessages()
  {
    assert code !in ErrorCodes;
  }

  // ---------------------------------------------------------------------------
  // The gateway

  /** The running application: the error-message table it mutates, the secret, the running statuses. */
  class Gateway {
    var errorMessages: ErrorTable
    const authSecret: string
    const running: set<RunStatus>

    /** The table has an entry for exactly the error codes. */
    ghost predicate Valid()
      reads this
    {
      errorMessages.Keys == ErrorCodes
    }

    constructor(authSecret: string, running: set<RunStatus>)
      ensures Valid()
      ensures errorMessages == InitialErrorMessages()
      ensures this.authSecret == authSecret && this.running == running
    {
      errorMessages := InitialErrorMessages();
      this.authSecret := authSecret;
      this.running := running;
    }

    /**
     * `make_error_response`: stamps the code's table entry and sends it. A
     * code without an entry fails, as the lookup in the table raises.
     */
    method MakeErrorResponse(errorCode: HttpStatus, extraDetails: Option<ExtraDetails>)
      returns (r: Result<Response, HttpStatus>)
      modifies this
      ensures errorCode !in old(errorMessages) ==> r == Failure(errorCode) && errorMessages == old(errorMessages)
      ensures errorCode in old(errorMessages) ==>
        r == Success(Render(Error(errorCode, extraDetails), old(errorMessages)))
      ensures errorMessages == AfterReply(old(errorMessages), Error(errorCode, extraDetails))
    {
      if errorCode !in errorMessages {
        return Failure(errorCode);
      }
      var errorMessage := errorMessages[errorCode];
      errorMessage := errorMessage[CodeKey := JString(errorCode.Name())];
      errorMessage := errorMessage[StatusKey := JInt(errorCode.Value())];
      if extraDetails.Some? {
        errorMessage := errorMessage[ExtraDetailsKey := JString(extraDetails.value.Value())];
      }
      errorMessages := errorMessages[errorCode := errorMessage];
      r := Success(Response(errorCode.Value(), JsonContentType, Json(errorMessage)));
    }

    /** Sends an error reply whose code has an entry. */
    method SendError(errorCode: HttpStatus, extraDetails: Option<ExtraDetails>) returns (r: Response)
      requires Valid() && errorCode.IsError()
      modifies this
      ensures Valid()
      ensures r == Render(Error(errorCode, extraDetails), old(errorMessages))
      ensures errorMessages == AfterReply(old(errorMessages), Error(errorCode, extraDetails))
    {
      var made := MakeErrorResponse(errorCode, extraDetails);
      r := made.value;
    }

    /** `is_authenticated_request`. */
    method IsAuthenticatedRequest(header: Option<string>) returns (r: Option<Response>)
      requires Valid()
      modifies this
      ensures Valid()
      ensures AuthCheck(header, authSecret).None? ==> r.None?
      ensures AuthCheck(header, authSecret).Some? ==>
        r == Some(Render(AuthCheck(header, authSecret).value, old(errorMessages)))
      ensures AuthCheck(header, authSecret).Some? ==>
        errorMessages == AfterReply(old(errorMessages), AuthCheck(header, authSecret).value)
      ensures AuthCheck(header, authSecret).None? ==> errorMessages == old(errorMessages)
    {
      if header.None? {
        var response := SendError(Unauthorized, None);
        return Some(response);
      }
      if header.value != authSecret {
        var response := SendError(Forbidden, None);
        return Some(response);
      }
      return None;
    }

    /** `ping`. */
    method Ping(header: Option<string>) returns (r: Response)
      requires Valid()
      modifies this
      ensures Valid()
      ensures r == Render(PingReply(header, authSecret), old(errorMessages))
      ensures errorMessages == AfterReply(old(errorMessages), PingReply(header, authSecret))
    {
      var authenticationResponse := IsAuthenticatedRequest(header);
      if authenticationResponse.Some? {
        return authenticationResponse.value;
      }
      r := Response(Ok.Value(), HtmlContentType, Text(""));
    }

    /** `start_model`, with `submit` standing for `submit_for_inference`. */
    method StartModel(
      header: Option<string>, modelId: string, imageData: seq<byte>,
      submit: (string, seq<byte>) -> Result<string, Exception>) returns (r: Response)
      requires Valid()
      modifies this
      ensures Valid()
      ensures r == Render(StartModelReply(header, authSecret, modelId, imageData, submit), old(errorMessages))
      ensures errorMessages ==
        AfterReply(old(errorMessages), StartModelReply(header, authSecret, modelId, imageData, submit))
    {
      var authenticationResponse := IsAuthenticatedRequest(header);
      if authenticationResponse.Some? {
        return authenticationResponse.value;
      }
      match submit(modelId, imageData)
      case Success(runId) =>
        r := Response(Created.Value(), PlainTextContentType, Text(runId));
      case Failure(webException) =>
        if webException.kind == WebserviceException && StartsWith(webException.message, ModelNotFoundPrefix) {
          r := SendError(NotFound, Some(InvalidModelId));
        } else {
          r := SendError(InternalServerError, None);
        }
    }

    /** The `except` clauses of `download_result`. */
    method SendServiceError(error: Exception) returns (r: Response)
      requires Valid()
      modifies this
      ensures Valid()
      ensures r == Render(ServiceErrorReply(error), old(errorMessages))
      ensures errorMessages == AfterReply(old(errorMessages), ServiceErrorReply(error))
    {
      if error.kind == ServiceException && error.message == ResourceNotFoundMessage {
        r := SendError(NotFound, Some(InvalidRunId));
      } else {
        r := SendError(InternalServerError, None);
      }
    }

    /** `download_result`, with `getRun` standing for `workspace.get_run`. */
    method DownloadResult(header: Option<string>, runId: string, getRun: string -> Result<Run, Exception>)
      returns (r: Response)
      requires Valid()
      modifies this
      ensures Valid()
      ensures r == Render(DownloadResultReply(header, authSecret, runId, getRun, running), old(errorMessages))
      ensures errorMessages ==
        AfterReply(old(errorMessages), DownloadResultReply(header, authSecret, runId, getRun, running))
    {
      var authenticationResponse := IsAuthenticatedRequest(header);
      if authenticationResponse.Some? {
        return authenticationResponse.value;
      }
      var lookup := getRun(runId);
      if lookup.Failure? {
        r := SendServiceError(lookup.error);
        return;
      }
      var run := lookup.value;
      if run.status in running {
        return Response(Accepted.Value(), HtmlContentType, Text(""));
      }
      if run.statusQuery.Some? {
        r := SendServiceError(run.statusQuery.value);
        return;
      }
      if run.status != Completed {
        if run.status == Failed {
          match run.driverLog
          case Failure(error) =>
            r := SendServiceError(error);
            return;
          case Success(driverLog) =>
            if driverLog.Some? && Contains(driverLog.value, BadZipFileMarker) {
              r := SendError(BadRequest, Some(InvalidZipFile));
              return;
            }
        }
        if run.status == Canceled {
          r := SendError(InternalServerError, Some(RunCancelled));
          return;
        }
        r := SendError(InternalServerError, None);
        return;
      }
      match run.result
      case Failure(error) =>
        r := SendServiceError(error);
      case Success(resultBytes) =>
        r := Response(Ok.Value(), ZipContentType, Bytes(resultBytes));
    }
  }
}
