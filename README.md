# InnerEye-Inference gateway: a Dafny model

This project models the decision logic of the InnerEye-Inference web service, a
Flask gateway that submits medical-image segmentation runs to Azure ML and hands
back their results. It covers three source files.

- **app.py.** The gateway itself:
  - the status codes and the module-level `ERROR_MESSAGES` table;
  - `make_error_response`, which stamps the table entry for a code in place and sends it as JSON;
  - the shared-secret check `is_authenticated_request`;
  - what `ping`, `start_model` and `download_result` answer for each outcome of the cloud calls they make.

  Each answer is first stated as a pure decision (`App.Reply`) and then rendered against the current error table. The class `App.Gateway` holds the table as a mutable field and follows the endpoints' own control flow. Every method is proved to send the rendered decision and to leave the table as `App.AfterReply` says.
- **configure.py.** `read_secret_from_file`:
  - reads a bash file of `export KEY=value` lines into a dictionary, line by line;
  - then looks one secret up.

  `get_environment_variable` prefers the process environment over that file.
- **submit_for_inference.py.**
  - The choice of a supported PyTorch version from Conda specs.
  - The selection of a model's files by name in `download_files_from_model`, and how it logs the URLs.
  - The layout of an inference submission: where the image is staged, the scoring script's arguments, and the Python environment name.

Supporting modules:
- `Text` holds Python's `str` operations as the source uses them: `startswith`, `find`, `in`, `split`, `replace(p, "")`, `strip`, `upper` and `splitlines`.
- `Paths` holds POSIX `pathlib` paths: parsing, `/`, `.name` and `.parent`.
- `AzureMl` holds the vocabulary of the cloud library: run statuses and exception kinds.
- `Wrappers` holds `Option` and `Result`.

The cloud calls enter the model as parameters:
- `workspace.get_run` is `getRun`;
- `submit_for_inference`, as the gateway calls it, is `submit`;
- the model registry's answer is `model`;
- the secrets file's text is `file`;
- the environment is a map.

Facts about the code that the model keeps as they are:
- Every error response mutates the module-level table of error messages (app.py:93-97). The model keeps that mutation (see Findings).
- A model without an environment tag is submitted with the environment name `""` (submit_for_inference.py:216; `SubmitForInference.EnvironmentName`).
- The image is written to `data/imagedata.zip` under a fresh temporary folder (submit_for_inference.py:206-211). The model takes that folder as the parameter `root`.
- `submit_for_inference` returns the run id alone (submit_for_inference.py:243).

## Model

| member | source | states |
|---|---|---|
| App.InitialEntry | app.py:52-75 | each error code's entry starts with exactly the keys "detail" and "title" (the texts are the source's, the header name taken from configure.py) |
| App.InitialErrorMessages | app.py:52-75 | the table has an entry for exactly the five error codes, and each entry holds just "detail" and "title" |
| App.SuccessCodesHaveNoEntry | app.py:52-75 | 200, 201 and 202 have no entry, so `make_error_response` on them fails |
| App.UpdatedEntry | app.py:93-97 | one call adds or overwrites "code" (the enum name) and "status" (the number), adds "extra_details" only when one is passed, and keeps every other key and value |
| App.AfterReply | app.py:93-97 | an error response changes only its own code's entry; every other entry and the set of codes stay as they were |
| App.Render | app.py:98 | a response carries the reply's numeric status; it is JSON, with content type application/json, exactly when the reply is an error |
| App.EnvelopeMatchesStatus | app.py:94-98 | an envelope's "status" equals the HTTP status it is sent with, and its "code" names that status |
| App.ReplayKeepsCodes | app.py:93-97 | however many responses were made, the table keeps exactly the codes it had |
| App.AfterReplyExtraDetails | app.py:96-97 | one response makes "extra_details" present iff it was already present or this call passes extra details for that code |
| App.ExtraDetailsSticky | app.py:96-97 | starting without it, an entry holds "extra_details" iff some earlier response for that code passed extra details: the key is never removed |
| App.AfterReplyKeepsShape | app.py:93-97 | a response keeps each entry's detail and title, adds no unknown key, and keeps "code"/"status" naming the entry's own status |
| App.ReplayKeepsShape | app.py:93-97 | the same holds after any sequence of responses |
| App.StampedEntriesAgree | app.py:93-97 | stamping a used entry gives what stamping its original gives, except perhaps "extra_details", and exactly that when this call passes details or the entry has none |
| App.CorrectedErrorResponse | app.py:85-98 | the evidently intended `make_error_response`, built from a copy: fails iff the code has no entry; sends that code's status as JSON; from an untouched entry the envelope's keys are detail, title, code, status and "extra_details" iff one is passed |
| App.DriftOnlyInExtraDetails | app.py:93-98 | whatever was answered before, an error response as written has the intended status and content type, and agrees with the intended envelope on every key but "extra_details" |
| App.NoDriftUnlessStale | app.py:93-98 | when this call passes extra details, or no earlier call for the code did, the response as written is exactly the intended one |
| App.DetailsOutliveTheirCall | app.py:93-97 | as written, after a response for a code passing some detail, the next response for that code passing none still carries it; the intended envelope does not |
| App.AuthCheck | app.py:101-115 | no refusal iff the header equals the secret; 401 when the header is missing; 403 when it differs |
| App.PingReply | app.py:118-123 | a refused request gets the refusal; otherwise 200 with an empty body |
| App.SubmissionErrorReply | app.py:141-149 | 404 `InvalidModelId` iff the exception is a `WebserviceException` whose message starts with "ModelNotFound"; 500 without details otherwise |
| App.StartModelReply | app.py:128-149 | refusal first; otherwise 201 with the run id, or the submission's exception mapped as above; every error reply has a table entry |
| App.ServiceErrorReply | app.py:193-201 | 404 `InvalidRunId` iff the exception is a `ServiceException` with message exactly "(UserError) Resource not found"; 500 without details otherwise |
| App.RunReply | app.py:160-192 | 202 iff the status is running; otherwise an exception from asking the run for its status (`run.get_status()`) goes to the exception mapping; otherwise 200 with the result bytes iff completed and downloaded; 400 `InvalidZipFile` iff failed with a readable log containing "zipfile.BadZipFile"; 500 `RunCancelled` iff cancelled; a log or download exception goes to the exception mapping; 500 without details in every other case |
| AzureMl.StatusNameIdentifies | app.py:160-165 | for statuses in their proper form (`Other` never naming "Completed", "Failed" or "Canceled"), two statuses are equal iff their strings are, so the model's tests on constructors are the source's tests on status strings |
| App.DownloadResultReply | app.py:154-201 | refusal first; otherwise the run's answer, or the lookup's exception mapped to 404 `InvalidRunId` or 500 |
| App.NotStartedIsAccepted | app.py:163-164 | a "NotStarted" run counted as running is answered 202 with an empty body |
| App.RefusalPrecedesCloudCalls | app.py:118-157 | a refused request gets the same answer whatever the submission or run lookup would do, and the same refusal from all three endpoints |
| App.Gateway.constructor | app.py:52-75 | the gateway starts with the module's table, which has an entry for each error code |
| App.Gateway.MakeErrorResponse | app.py:85-98 | fails for a code without an entry and changes nothing; otherwise sends the stamped entry with the code's status and stores it back in the table |
| App.Gateway.SendError | app.py:85-98 | for an error code, sends the rendered error reply and updates the table as `App.AfterReply` says |
| App.Gateway.IsAuthenticatedRequest | app.py:101-115 | sends 401 or 403 as `App.AuthCheck` decides, or returns nothing and leaves the table unchanged |
| App.Gateway.Ping | app.py:118-123 | sends `App.PingReply`, rendered against the table, and updates the table accordingly |
| App.Gateway.StartModel | app.py:126-149 | sends `App.StartModelReply`, rendered against the table, and updates the table accordingly |
| App.Gateway.SendServiceError | app.py:193-201 | sends `App.ServiceErrorReply`, rendered against the table, and updates the table accordingly |
| App.Gateway.DownloadResult | app.py:152-201 | sends `App.DownloadResultReply`, rendered against the table, and updates the table accordingly |
| Configure.ParseLine | configure.py:28-30 | a non-comment line yields a key and value iff it contains '='; the key has no '=' and no lower-case letter |
| Configure.FirstEqualsSplits | configure.py:28-30 | the line splits at its first '=': key is stripped and upper-cased, value is stripped and keeps any later '=' |
| Configure.ParseSucceedsIff | configure.py:26-30 | the file parses iff every non-comment line contains '=' (a blank line does not) |
| Configure.ParseFailsAtFirstMalformed | configure.py:26-34 | a failure names the first non-comment line without '=' |
| Configure.FailurePersists | configure.py:26-34 | once a prefix fails, the whole file fails with the same error |
| Configure.ParsedKeysAreUpper | configure.py:29 | every parsed key is upper-case and free of '=' |
| Configure.UndefinedKeyAbsent | configure.py:29-31 | a key that no non-comment line defines is not in the dictionary |
| Configure.LastDefinitionWins | configure.py:30 | when several lines define a key, the last one's value is kept |
| Configure.LowerCaseNameNeverFound | configure.py:29-34 | looking up a name with a lower-case letter always fails |
| Configure.LookupFindsLastDefinition | configure.py:26-31 | the lookup returns the value of the last line defining the name |
| Configure.ReadSecretFromFile | configure.py:18-34 | the loop over the lines, overwriting earlier keys, returns exactly what `LookupSecret` specifies: the value, an unreadable file, the first malformed line, or a missing name |
| Configure.GetEnvironmentVariable | configure.py:37-43 | a variable set in the environment, even to "", is returned without reading the file; otherwise the file's answer |
| Text.JoinSplit | submit_for_inference.py:112 | `split` loses nothing: joining the pieces with the separator gives the string back |
| Text.SplitInTwo | submit_for_inference.py:112-113 | `split` gives exactly two pieces iff the separator occurs exactly once, and they are the text before and after it |
| Text.StripIsTrimmedSlice | configure.py:28-30 | `strip` gives a slice with no leading or trailing whitespace, and only whitespace is dropped |
| Text.SplitJoinLines | configure.py:26 | `splitlines` gives back the lines of a file written line by line |
| Paths.ParsedPartsAreComponents | submit_for_inference.py:143 | every component of a parsed path is non-empty, not "." and free of '/' |
| Paths.JoinName | submit_for_inference.py:209-211 | appending a plain name adds one component, which is the new `.name`, and `.parent` gives the folder back |
| SubmitForInference.PytorchVersionFromCondaDependencies | submit_for_inference.py:105-118 | `None` iff no spec is a pytorch spec with a compatible supported version; otherwise the first compatible supported version of the first such spec |
| SubmitForInference.PytorchSpecShape | submit_for_inference.py:112-114 | a spec counts iff it is "pytorch=" followed by text without '=', and that text is the requested version |
| SubmitForInference.PytorchPrefix | submit_for_inference.py:112-113 | a spec starts with "pytorch=" iff its first '=' comes right after "pytorch" |
| SubmitForInference.OperatorSpecsNeverMatch | submit_for_inference.py:112-113 | "pytorch==v" and "pytorch>=v" never count |
| SubmitForInference.SelectedFilesMatch | submit_for_inference.py:142-143 | every selected file's last path component is the base name |
| SubmitForInference.SelectedInOrder | submit_for_inference.py:142 | selected files keep the mapping's iteration order, each once |
| SubmitForInference.AllMatchesSelected | submit_for_inference.py:142-143 | every file whose last component is the base name is selected |
| SubmitForInference.NothingMatchesIffEmpty | submit_for_inference.py:153-155 | nothing is selected iff no file has the base name |
| SubmitForInference.TrimUrl | submit_for_inference.py:148-150 | the logged URL is a prefix of the URL; unchanged without '?' or with '?' first; otherwise cut right before the first '?' |
| SubmitForInference.DownloadFilesFromModel | submit_for_inference.py:141-155 | returns `dir_path / path` for exactly the selected files, in order; fetches each one's URL; logs each with the trimmed URL; logs one warning when nothing matched |
| SubmitForInference.EnvironmentName | submit_for_inference.py:216 | the model's "python_environment_name" tag, or "" when absent |
| SubmitForInference.ImagePathLayout | submit_for_inference.py:209-211 | the image path is the root followed by "data" and "imagedata.zip"; its name and its parent's name are those two |
| SubmitForInference.ScriptParamsFlags | submit_for_inference.py:226-234 | "--model-id" and "--model_id" are each followed by the model id, "--data_folder" by the image's folder name, "--image_files" by its file name, "--use_dicom" by "True" |
| SubmitForInference.SubmissionLayout | submit_for_inference.py:203-234 | a failed model lookup passes its exception on; otherwise the request's bytes are staged at `root/data/imagedata.zip`, with the argument flags above using the resolved id, "data" and "imagedata.zip", and the environment tag or "" |

## Left out

- Flask routing, `Response` objects, headers and JSON serialisation are left out. A response is modelled as status, content type and body. The JSON envelope is a map from the five known keys to values, and key order is not modelled.
- The authentication header is an `Option<string>`. HTTP header names are case-insensitive, and that is not modelled.
- The secret is a constructor parameter of `App.Gateway`. API_AUTH_SECRET_ENVIRONMENT_VARIABLE and configuration_constants.py are not part of this model.
- Reading the request body (`request.stream.read()`, app.py:134) is not modelled: the body is a parameter. An exception raised while reading it would go to the generic 500, which the model covers through `submit`.
- `start_model` builds `SubmitForInferenceConfig` without the required `experiment_name` (app.py:136, submit_for_inference.py:127). The gateway therefore calls submission as an abstract `submit` outcome: a run id or an exception. It does not call `SubmitForInference.PrepareSubmission`.
- Tests/test_api.py:373 expects `(run_id, path)` from `submit_for_inference`, which returns a string (submit_for_inference.py:243). The test is not modelled.
- Azure ML SDK behaviour is left out because it is foreign library code: `Model(...)`, `Workspace.get_run`, `run.download_files`, `run.download_file`, `Experiment.submit`, `Environment.get` and datastores. The running and post-processing statuses are a parameter `running`, because the library defines them.
- Run statuses are taken in their proper form (`AzureMl.WellFormed`): a status string "Completed", "Failed" or "Canceled" is always its own constructor. A value `Other("Completed")` does not stand for any status the library returns, and the model gives it no meaning.
- `ServiceException` and `WebserviceException` are modelled as distinct exception kinds, caught by their own clauses. Any other kind is `OtherException`.
- HTTP downloads, file writes, `mkdir`, temporary folders, `MemoryTempfile` and logging are left out as I/O. The download's fetched URLs and the log lines are returned as sequences instead.
- `model_sas_urls` is a sequence of pairs in the dictionary's iteration order.
- Conda merging (submit_for_inference.py:37-102) and `create_run_config` (submit_for_inference.py:158-191) are wrappers over third-party libraries and are left out.
- download_model_and_run_scoring.py, azure_config.py and source_config.py are not part of this model. They are argparse, subprocess, SDK authentication and a plain record.
- The `None` check at configure.py:41-42 is unreachable: `read_secret_from_file` returns a string or raises. The model has no branch for it.
- `Text.Upper` upper-cases ASCII letters only. Python's full Unicode case mapping is not modelled.
- `Text.IsSpace` and `Text.IsLineBreak` follow Python's definitions for the characters they list. Characters outside those lists are treated as ordinary text.
- `Paths` models POSIX paths only. It does not model the special `//` root that `pathlib` keeps, or Windows paths.
- `Configure.ConfigError` tells the reasons for failure apart: unreadable file, the malformed line's index, or a missing name. The source raises the underlying exception after logging it.
- `SubmitForInference.MatchingIndices`: its own contract states only that positions are in range. Its meaning is proved in `SelectedFilesMatch`, `SelectedInOrder` and `AllMatchesSelected`.
- Concurrent requests: a threaded server can interleave the mutations of the shared error-message table made by simultaneous error responses. The model takes responses one at a time (`App.Replay`, and the lemmas over it, assume that order); interleaving is not modelled.

## Findings

| source | as written | input that shows it | evidently intended | confidence | as-written member | corrected member |
|---|---|---|---|---|---|---|
| app.py:93-97 | `make_error_response` writes "code", "status" and "extra_details" into the module-level `ERROR_MESSAGES` entry itself, so "extra_details" stays for later responses with the same code | `make_error_response(INTERNAL_SERVER_ERROR, RUN_CANCELLED)` for a cancelled run, then `make_error_response(INTERNAL_SERVER_ERROR)` for any other failure: the second envelope still says "extra_details": "RunCancelled" | the envelope is built from a copy of the entry, so "extra_details" appears exactly when the call passes one, as Tests/test_api.py:61-64 asserts | not executed; high (the mutation is plain in the code) | App.DetailsOutliveTheirCall | App.CorrectedErrorResponse |

`App.DetailsOutliveTheirCall` holds for any table in which the code's entry has just a detail and a title. `App.InitialErrorMessages` proves the module's table is such a table. `App.ExtraDetailsSticky` gives the general statement: once set, the key stays.

`App.DriftOnlyInExtraDetails` and `App.NoDriftUnlessStale` compare the code as written with the corrected version. They differ only in "extra_details", and only when an earlier call for the same code passed details.

`App.Gateway` keeps the behaviour as written, because that is what the service does. `App.CorrectedErrorResponse` is the corrected definition that these lemmas measure it against.
