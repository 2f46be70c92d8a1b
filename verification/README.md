# Verified models of Kubeflow Pipelines components

Kubeflow Pipelines holds several small programs whose correctness arguments are about unbounded
histories or unbounded texts: a watcher that must not record anything twice, a worker pool, a text
pass over printed JSON, a framing codec, signed paths, a resumable release script.  This project
models them in Dafny and proves what they are relied on for.  One module per file; each module
starts with the functions that say what the program computes or how its state steps, then the
properties, and, where the program works in place, a class or a method with loops that is proved to
do what those functions say.

**The metadata writer** (`Lru`, `Contexts`, `MetadataWriter`, `WriterCaches`, `WriterOnce`,
`WriterCoverage`, `WriterRuns`, `WriterRecords`, `WriterLoop`).  The writer watches pods, records
one execution and its output artifacts per pod, and patches labels back.  The API server is a map
from pod names to all versions a pod has had; an event delivers any version from the last delivered
one on, a new watch starts at the latest version, and the writer may be restarted at any moment.
Exceptions can cut an event short before, between and after the records it makes, and a patch may
fail all its retries, which `patch_pod_metadata` swallows.  The caches are recency-ordered lists
with eviction. The comment above the caches claims that they prevent races and that restarts are
harmless.  What holds is this, for caches of all sizes.  A pod is *covered* while the writer
remembers it, or every version it can still be shown is labelled, or every attempt to handle it
raises before anything is recorded.  No next event can duplicate a record if and only if all pods
are covered (`CoveredExactly`); a step keeps them covered if and only if it is a `SafeStep`, a
condition on the state and the step that can be read off before the step is taken
(`StepCoveredExactly`); so safe runs of any length record every pod at most once, and an unsafe step
is one after which some event does duplicate a record (`UnsafeStepIsFatal`).  If patches succeed,
nothing fails between a record and its patch, and no pod is evicted before its label was seen,
restarts are harmless wherever they fall (`RestartsAreHarmless`).  With a pod cache larger than the
workflow cache, and only then, a run can leave a pod *stuck*: cached while its workflow is not
(`StuckExactly`).  Its events raise and record nothing as long as no other pod is shown and the
writer is not restarted (`StuckStays`); recording another pod frees it if that pod is of the same
workflow or evicts it (`FreedExactly`). What is recorded is right in every run: each artifact of a
pod has the name and the URI of an output that the pod shows (`StoreTruthful`), and an event that
goes through leaves no output with a URI out (`EventRecords`).

**The worker pool** (`TaskPool`).  `runPool` as interleaved stretches between awaits, for every
schedule and every outcome of every task.

**Placeholders in printed JSON** (`ContainerDumps` and `ContainerJson` on `JsonText`).  `container_component_dumps`
prints all placeholders in quotes and strips the quotes again with regular expressions.  It prints
what a type-directed printer prints exactly when the names it collects are ASCII, no string, key or
string input *hits* one of them, and every non-string input was collected (`DumpsExactly`).  A
string hits a name when it is its placeholder's text, and also when it merely ends in a double quote
followed by that text: the escaped quote is mistaken for the opening one (`LiteralDamaged`).  Tuples
print like lists, but names are not collected from them, so an input that occurs in tuples only
keeps its quotes (`TupleMissed`).  `ContainerJson` reads texts: a JSON reader that also takes a bare
placeholder for a value reads the type-directed text of every value as that value (`PrintReadBack`),
and what is really printed exactly under the condition above (`DumpsReadsExactly`).

**gRPC-Web frames** (`GrpcWeb`), **TensorBoard proxy paths** (`TensorboardProxy` on `Base64Url`,
`UriComponent` and `Bytes`), **the release flow** (`Release`, and `ReleaseCrash` for a process that
can die anywhere), **wildcards in object keys** (`GlobListing`), **files on pod volumes**
(`VolumePaths`), **pages and page tokens** (`Paging` on `Decimal`), **checks of a pull request**
(`PrChecks`).  `Wrappers`, `Sequences` and `Strings` hold what they share.

Where the code does less than its documentation or its use suggests, the model follows the code and
a lemma says exactly when the expectation is met:

- the metadata writer's cache comment: `StepCoveredExactly`, `StuckExactly`;
- quotes around placeholders: `DumpsExactly`, `DumpsReadsExactly`, `LiteralDamaged`, `TupleMissed`;
- messages of 2^32 bytes and more: `RequestRoundTrip`;
- a token with reserved characters is encoded a second time when it comes from a referer:
  `RewriteExactly`; minted tokens have none: `MintedReferer`;
- `next` refuses checkpoints that `run` accepts, and `done` can write such a checkpoint:
  `DriversAgreeExactly`, `DriversDisagree`, and `ReachableDriversAgree` when it does not;
- a picked mount whose sub path is empty does not vet the file path: `PickedResolvesExactly`;
- a filter reloads with the token of the page shown and then calls the answer the first page:
  `FilterExactly`, `FilterOnSecondPage`;
- a sort that finishes while a page change is under way: `EndExactly`, `ResetDuringLoad`.

## Model

| member | source | states |
|---|---|---|
| `Lru.PutKeeps` | backend/metadata_writer/src/metadata_writer.py:144-146 | storing keeps exactly the new key and all old keys but the evicted one, with their values; the bound and distinct keys are kept |
| `Lru.TouchKeeps` | backend/metadata_writer/src/metadata_writer.py:225-226 | a lookup changes the order only |
| `Lru.RecencyOrder` | backend/metadata_writer/src/metadata_writer.py:144-146 | after any sequence of lookups and stores the entries stand in the order of their last uses, so what a full cache drops is what was used longest ago |
| `Contexts.ScanFinds` | backend/metadata_writer/src/metadata_helpers.py:194-198 | with unique names the scan finds the one context of that name and fails only when there is none |
| `Contexts.FreshGetOrCreateKeepsUnique` | backend/metadata_writer/src/metadata_helpers.py:201-227 | get-or-create keeps names unique; a success is a context of the asked name and type, and the only failure left is the wrong type |
| `Contexts.AnswerIsStable` | backend/metadata_writer/src/metadata_helpers.py:201-227 | a name keeps its one context however the table grows |
| `Contexts.LookupAgrees` | backend/metadata_writer/src/metadata_helpers.py:189-198 | the memoised lookup returns what scanning now would return, misses included, and the memo stays truthful |
| `Contexts.GetOrCreateAgrees` | backend/metadata_writer/src/metadata_helpers.py:201-227 | the memoised get-or-create has the result and the effect of the unmemoised one |
| `Contexts.ContextClient.Lookup` | backend/metadata_writer/src/metadata_helpers.py:189-198 | updates the memo in place and answers as a scan |
| `Contexts.ContextClient.GetOrCreateContext` | backend/metadata_writer/src/metadata_helpers.py:201-227 | the code with its memo: result and new table are those of the unmemoised function |
| `Contexts.ContextClient.Serve` | backend/metadata_writer/src/metadata_helpers.py:273-290 | any sequence of calls, with contexts of other writers in between, gets the answers that rescanning every time would give |
| `MetadataWriter.NextInv` | backend/metadata_writer/src/metadata_writer.py:149-409 | whatever happens, labels, caches and artifacts point at an execution of their own pod, executions at the run context of their own workflow, and all caches stay well formed |
| `MetadataWriter.IdentifyInv` | backend/metadata_writer/src/metadata_writer.py:224-318 | the ids an event is handled with name an execution of this very pod, from cache, label or store alike |
| `WriterCaches.PutInStep` | backend/metadata_writer/src/metadata_writer.py:317-318 | storing a pod and its workflow keeps the deduplicated workflows of the pod cache a prefix of the workflow cache, eviction included |
| `WriterCaches.TouchInStep` | backend/metadata_writer/src/metadata_writer.py:225-226 | looking both up keeps that prefix |
| `WriterCaches.HitHasWorkflow` | backend/metadata_writer/src/metadata_writer.py:224-226 | under that invariant a pod cache hit has its workflow in the other cache |
| `WriterCaches.NextInStep` | backend/metadata_writer/src/metadata_writer.py:144-146 | every step of the system keeps the two caches in step when the workflow cache is at least as large |
| `WriterOnce.NextHistory` | backend/metadata_writer/src/metadata_writer.py:191-192 | every step keeps: a written label means a record, a skipped pod is never recorded, and recorded outputs are among those the pod shows |
| `WriterOnce.NextSound` | backend/metadata_writer/src/metadata_writer.py:149-409 | every step keeps all state invariants together |
| `WriterRecords.RecordsExactly` | backend/metadata_writer/src/metadata_writer.py:357-384 | exactly the outputs with a URI become artifacts, each under its own name, with its own URI and under the ids of this event; none twice when the names are distinct |
| `WriterRecords.PublishesExactly` | backend/metadata_writer/src/metadata_writer.py:333-400 | a completed pod, or one that shows outputs, is published unless it was before; uncut, every output with a URI is stored with that URI and nothing else is; cut short, the first of them are |
| `WriterRecords.EventRecords` | backend/metadata_writer/src/metadata_writer.py:168-409 | an event that nothing cuts short, of a pod not written before, stores exactly those artifacts and marks exactly the completed pods and those that show outputs |
| `WriterRecords.NextTruthful` | backend/metadata_writer/src/metadata_writer.py:149-409 | every step keeps: each artifact of a pod comes from an output of that name and that URI which the pod shows |
| `WriterRecords.StoreTruthful` | backend/metadata_writer/src/metadata_writer.py:149-409 | so it is after every run from the start, whatever goes wrong in it |
| `WriterCoverage.CoveredHandleOnce` | backend/metadata_writer/src/metadata_writer.py:191-400 | when every pod is covered, no event records an execution or an output a second time, whatever the cache sizes |
| `WriterCoverage.CoveredExactly` | backend/metadata_writer/src/metadata_writer.py:139-143 | no event at all can duplicate a record if and only if every pod is covered |
| `WriterCoverage.LinkFaultUncovers` | backend/metadata_writer/src/metadata_writer.py:250-317 | an exception between creating the execution and caching it leaves the pod uncovered |
| `WriterCoverage.DeliveryCoveredExactly` | backend/metadata_writer/src/metadata_writer.py:191-400 | handling an event keeps every pod covered if and only if no fault cuts it between record and cache write, no unlabelled pod is evicted, and no pod with unlabelled, forgotten outputs stops being stuck |
| `WriterCoverage.RestartCoveredExactly` | backend/metadata_writer/src/metadata_writer.py:140-142 | a restart keeps every pod covered if and only if all records show in the latest labels |
| `WriterCoverage.StepCoveredExactly` | backend/metadata_writer/src/metadata_writer.py:139-143 | a step keeps every pod covered if and only if it is safe |
| `WriterRuns.SafeRunRecordsOnce` | backend/metadata_writer/src/metadata_writer.py:139-146 | over every safe run, with caches of any size, each pod gets at most one execution and each output name at most one artifact |
| `WriterRuns.UnsafeStepIsFatal` | backend/metadata_writer/src/metadata_writer.py:139-146 | after a safe run, a step is safe if and only if no next event can duplicate a record |
| `WriterRuns.RestartsAreHarmless` | backend/metadata_writer/src/metadata_writer.py:142-142 | with working patches, no fault between a record and its patch, and no pod evicted before its label was seen, restarts anywhere and any number of them duplicate nothing, for any number of pods and caches of any size |
| `WriterRuns.NeverStuck` | backend/metadata_writer/src/metadata_writer.py:224-226 | with a workflow cache at least as large, no run reaches a cached pod whose workflow is not cached |
| `WriterRuns.StuckRaises` | backend/metadata_writer/src/metadata_writer.py:226-226 | every unwritten event of a stuck pod raises; no event of it records an execution or an artifact, and the pod stays stuck |
| `WriterRuns.StuckStays` | backend/metadata_writer/src/metadata_writer.py:224-226 | over every run that shows no other pod and does not restart, a stuck pod stays stuck and nothing is recorded |
| `WriterRuns.FreedExactly` | backend/metadata_writer/src/metadata_writer.py:317-318 | recording another pod frees a stuck one if and only if it belongs to the same workflow or evicts it |
| `WriterRuns.StuckExactly` | backend/metadata_writer/src/metadata_writer.py:144-146 | such a state is reachable if and only if the pod cache is larger than the workflow cache |
| `WriterLoop.Writer.constructor` | backend/metadata_writer/src/metadata_writer.py:144-147 | the writer starts with empty caches |
| `WriterLoop.Writer.PatchPod` | backend/metadata_writer/src/metadata_writer.py:47-67 | a patch adds a labelled version, or nothing when every retry fails |
| `WriterLoop.Writer.RunContext` | backend/metadata_writer/src/metadata_helpers.py:273-290 | the run context, a context of type KfpRun named after the workflow, through the memo |
| `WriterLoop.Writer.Register` | backend/metadata_writer/src/metadata_writer.py:231-318 | the in-place code creates, patches and caches in this order and stops where the fault says |
| `WriterLoop.Writer.Identify` | backend/metadata_writer/src/metadata_writer.py:224-318 | cache, else label, else a new record; a missing workflow raises after the pod was touched |
| `WriterLoop.Writer.RecordOutputs` | backend/metadata_writer/src/metadata_writer.py:357-384 | records exactly the outputs with a URI, in order, up to the fault; each artifact has the name and the URI of its output |
| `WriterLoop.Writer.Publish` | backend/metadata_writer/src/metadata_writer.py:333-400 | records outputs once the pod is complete or shows outputs, then patches and caches |
| `WriterLoop.Writer.Record` | backend/metadata_writer/src/metadata_writer.py:224-400 | identification followed by publication |
| `WriterLoop.Writer.HandleEvent` | backend/metadata_writer/src/metadata_writer.py:168-409 | one pass of the event loop has the effect of `Handle` and keeps the invariant |
| `WriterLoop.Writer.NewWatch` | backend/metadata_writer/src/metadata_writer.py:149-165 | a new watch starts every pod at its latest version |
| `WriterLoop.Writer.Restart` | backend/metadata_writer/src/metadata_writer.py:142-146 | a restart loses all caches and nothing else |
| `WriterLoop.Writer.Watch` | backend/metadata_writer/src/metadata_writer.py:149-409 | the endless loop, over any finite history, ends in the state the step functions give |
| `TaskPool.AdvanceInv` | frontend/scripts/generate_openapi_typescript_fetch.js:572-583 | every stretch keeps: claims are 0, 1, 2, ... each once; each settles at most once, by the worker that claimed it; nothing is claimed after a failure |
| `TaskPool.AdvanceProgress` | frontend/scripts/generate_openapi_typescript_fetch.js:573-582 | every stretch lowers a bounded measure, so the pool settles once its tasks do |
| `TaskPool.InFlightBound` | frontend/scripts/generate_openapi_typescript_fetch.js:584-586 | claimed tasks that are not settled are the running ones, never more than there are workers |
| `TaskPool.WidthIsMinimum` | frontend/scripts/generate_openapi_typescript_fetch.js:584-586 | there are at most as many workers as the concurrency and as the tasks, and exactly as many as one of them |
| `TaskPool.FailureShows` | frontend/scripts/generate_openapi_typescript_fetch.js:576-590 | a rejected worker, the failed flag and a task that threw imply one another |
| `TaskPool.FirstRejected` | frontend/scripts/generate_openapi_typescript_fetch.js:587-590 | the reason thrown is that of the lowest-numbered worker that failed |
| `TaskPool.SettledPool` | frontend/scripts/generate_openapi_typescript_fetch.js:584-590 | once settled, every claimed task has settled; without an error and with concurrency at least 1 every task was fulfilled; an error is reported if and only if a task threw |
| `TaskPool.SharedPool.Run` | frontend/scripts/generate_openapi_typescript_fetch.js:569-582 | one stretch of a worker on the shared variables |
| `TaskPool.RunPool` | frontend/scripts/generate_openapi_typescript_fetch.js:568-591 | every schedule with every outcome ends settled, with the invariant and the guarantees above; the workers are the smaller of concurrency and tasks, and at no moment are more tasks claimed and not settled than the concurrency, or than there are tasks |
| `ContainerDumps.SubRender` | components/google-cloud/google_cloud_pipeline_components/utils.py:136-136 | replacing a pattern in the text of a whole value is replacing it in each of its strings: no match reaches across the structure |
| `ContainerDumps.UnquoteRender` | components/google-cloud/google_cloud_pipeline_components/utils.py:130-137 | the same for all patterns one after the other |
| `ContainerDumps.SubTokenHit` | components/google-cloud/google_cloud_pipeline_components/utils.py:134-136 | in a quoted string that ends in the quoted placeholder the pass strips just those two quotes |
| `ContainerDumps.SubTokenMiss` | components/google-cloud/google_cloud_pipeline_components/utils.py:134-136 | any other quoted string is left alone |
| `ContainerDumps.UnquoteTokenHit` | components/google-cloud/google_cloud_pipeline_components/utils.py:130-137 | the same after all names: later patterns neither undo nor repeat it |
| `ContainerDumps.EndsOnlyHits` | components/google-cloud/google_cloud_pipeline_components/utils.py:134-140 | an escaped string ends in a quoted placeholder only if the raw string hits that ASCII name |
| `ContainerDumps.HitsEnd` | components/google-cloud/google_cloud_pipeline_components/utils.py:134-140 | and whenever it does |
| `ContainerDumps.RenderAscii` | components/google-cloud/google_cloud_pipeline_components/utils.py:140-141 | what is printed is ASCII, whatever the names |
| `ContainerDumps.DumpsExactly` | components/google-cloud/google_cloud_pipeline_components/utils.py:77-141 | for every nesting of lists, tuples, dicts and scalars, print-then-unquote equals the type-directed printer if and only if all collected names are ASCII, no string, key or string input hits one, and every non-string input was collected |
| `ContainerDumps.LiteralDamaged` | components/google-cloud/google_cloud_pipeline_components/utils.py:134-136 | a literal that is no placeholder's text, yet loses its quotes |
| `ContainerDumps.TupleMissed` | components/google-cloud/google_cloud_pipeline_components/utils.py:105-121 | an input inside a tuple, and nowhere else, keeps its quotes |
| `ContainerDumps.FieldCollector.Visit` | components/google-cloud/google_cloud_pipeline_components/utils.py:105-121 | the recursive walk over lists and dicts appends the names of the non-string inputs in order |
| `ContainerDumps.UnquoteNonstringPlaceholders` | components/google-cloud/google_cloud_pipeline_components/utils.py:130-137 | the loop applies the replacements in the order of the names |
| `ContainerDumps.ContainerComponentDumps` | components/google-cloud/google_cloud_pipeline_components/utils.py:139-141 | collect, print, unquote |
| `ContainerDumps.EitherQuote` | components/google-cloud/google_cloud_pipeline_components/utils.py:132-136 | the name inside the placeholder may stand in quotes of either kind, and single ones replace them: pattern and replacement spelled out |
| `ContainerDumps.DocumentedExample` | components/google-cloud/google_cloud_pipeline_components/utils.py:82-91 | the documented call, for any plain keys and any two ASCII names: the string input keeps its quotes and the other one loses them |
| `JsonText.CharReadBack` | components/google-cloud/google_cloud_pipeline_components/utils.py:140-140 | every character is read back from its escape by a JSON reader, section 7 of RFC 8259, surrogate pairs included |
| `JsonText.EscapeSpelled` | components/google-cloud/google_cloud_pipeline_components/utils.py:140-140 | which characters stand for themselves, the two-letter escapes, and the digits of the others, spelled out |
| `ContainerJson.NamesSpelled` | components/google-cloud/google_cloud_pipeline_components/utils.py:116-120 | every identifier is among the names the results are about |
| `ContainerJson.NumbersSpelled` | components/google-cloud/google_cloud_pipeline_components/utils.py:140-140 | and every text a number prints as among the numbers |
| `ContainerJson.EscapeReadBack` | components/google-cloud/google_cloud_pipeline_components/utils.py:140-140 | the text between the quotes of a printed string reads as the string, whatever follows |
| `ContainerJson.PrintReadBack` | components/google-cloud/google_cloud_pipeline_components/utils.py:77-141 | a JSON reader that also knows bare placeholders reads the type-directed text of every value as that value |
| `ContainerJson.WrongReads` | components/google-cloud/google_cloud_pipeline_components/utils.py:134-141 | where the quotes are stripped wrongly, the text does not read as the value, whatever follows it |
| `ContainerJson.DumpsReadsExactly` | components/google-cloud/google_cloud_pipeline_components/utils.py:77-141 | for every value: what is printed reads as the value if and only if all collected names are ASCII, no string, key or string input hits one, and every non-string input was collected |
| `GrpcWeb.GetSet` | frontend/server/helpers/mlmd-validator.ts:112-124 | reading a written length gives it modulo 2^32 |
| `GrpcWeb.StatusReadBack` | frontend/server/helpers/mlmd-validator.ts:138-140 | a printed status is read back behind any text without a match, behind any white space and before anything that is no digit |
| `GrpcWeb.StatusIsFirst` | frontend/server/helpers/mlmd-validator.ts:138-140 | the status is the number of the first match |
| `GrpcWeb.StatusMissing` | frontend/server/helpers/mlmd-validator.ts:138-140 | it is -1 if and only if nothing matches |
| `GrpcWeb.StatusSpelled` | frontend/server/helpers/mlmd-validator.ts:138-140 | `grpc-status:` as it is written, then any blanks and tabs, then a printed number: that number is the status, behind any text without that header |
| `GrpcWeb.StatusAbsent` | frontend/server/helpers/mlmd-validator.ts:138-140 | a text without that header has the status -1 |
| `GrpcWeb.ParseWire` | frontend/server/helpers/mlmd-validator.ts:122-166 | reading written frames with zero statuses gives back the frames |
| `GrpcWeb.WireParse` | frontend/server/helpers/mlmd-validator.ts:122-166 | whatever is read without error is the writing of exactly the frames found |
| `GrpcWeb.WireUnique` | frontend/server/helpers/mlmd-validator.ts:122-158 | a buffer is a concatenation of frames in at most one way |
| `GrpcWeb.DecodesExactly` | frontend/server/helpers/mlmd-validator.ts:117-181 | decoding gives a message if and only if the buffer is complete frames, all trailers with status 0, at least one data frame, whose payloads in order are the message |
| `GrpcWeb.ResponseDecodes` | frontend/server/helpers/mlmd-validator.ts:117-181 | data frames and a trailer of the text `grpc-status: 0` with its line end decode to their payloads in order |
| `GrpcWeb.FailsExactly` | frontend/server/helpers/mlmd-validator.ts:117-172 | decoding ends in an error if and only if that is the first thing wrong behind good frames, with its offset, lengths, type byte or status, or if nothing is wrong and there is no data frame |
| `GrpcWeb.HeaderSpelled` | frontend/server/helpers/mlmd-validator.ts:122-124 | a frame starts with 0x00 or 0x80 and the four bytes of its length, the highest first |
| `GrpcWeb.RequestSpelled` | frontend/server/helpers/mlmd-validator.ts:108-115 | and a request with 0x00 and its length |
| `GrpcWeb.RequestRoundTrip` | frontend/server/helpers/mlmd-validator.ts:108-115 | an encoded request decodes to its message if and only if it is shorter than 2^32 bytes |
| `GrpcWeb.EncodeGrpcWebRequest` | frontend/server/helpers/mlmd-validator.ts:108-115 | the array holds type byte, length and message |
| `GrpcWeb.Merge` | frontend/server/helpers/mlmd-validator.ts:174-180 | the copying loop fills the array exactly, with the chunks in order |
| `GrpcWeb.DecodeGrpcWebResponse` | frontend/server/helpers/mlmd-validator.ts:117-181 | the loop with its five error exits computes `Decoded`, and the offset never passes the end |
| `Base64Url.RoundTrip` | frontend/server/handlers/tensorboard-proxy.ts:112-112 | every byte sequence survives base64url, section 5 of RFC 4648 |
| `Base64Url.EncodeInAlphabet` | frontend/server/handlers/tensorboard-proxy.ts:112-114 | the encoding has no dot, slash or percent sign |
| `Base64Url.EncodeSpelled` | frontend/server/handlers/tensorboard-proxy.ts:112-112 | three bytes are one number of 24 bits, printed as its four digits to the base 64 in the alphabet of the RFC; the letters of missing bytes are left out |
| `UriComponent.Utf8RoundTrip` | frontend/server/handlers/tensorboard-proxy.ts:114-114 | every character survives UTF-8 |
| `UriComponent.RoundTrip` | frontend/server/handlers/tensorboard-proxy.ts:114-190 | decodeURIComponent undoes encodeURIComponent on every string |
| `UriComponent.EncodeFixed` | frontend/server/handlers/tensorboard-proxy.ts:114-157 | encoding changes nothing if and only if all characters are unreserved |
| `UriComponent.UnreservedSpelled` | frontend/server/handlers/tensorboard-proxy.ts:114-114 | which characters encoding leaves alone, one by one |
| `UriComponent.EncodeSpelled` | frontend/server/handlers/tensorboard-proxy.ts:114-114 | what a space, a slash and a letter beyond ASCII become |
| `TensorboardProxy.JsonExactly` | frontend/server/handlers/tensorboard-proxy.ts:108-219 | for names that are Kubernetes labels, bytes parse to a payload if and only if they are its serialisation |
| `TensorboardProxy.CharsReadBack` | frontend/server/handlers/tensorboard-proxy.ts:108-111 | a JSON reader finds any name again between its quotes |
| `TensorboardProxy.SerializeInjective` | frontend/server/handlers/tensorboard-proxy.ts:108-111 | different payloads are signed as different texts |
| `TensorboardProxy.AcceptedExactly` | frontend/server/handlers/tensorboard-proxy.ts:184-234 | for any MAC, a token is accepted for a payload if and only if both names are labels (1 to 63 characters a to z, 0 to 9 and dash, no dash at either end) and it carries the payload and its digest |
| `TensorboardProxy.MintedRoundTrip` | frontend/server/handlers/tensorboard-proxy.ts:103-262 | for all names that are labels, any MAC and any trailing path, the created path splits into the same token and path, and the token parses to the same names |
| `TensorboardProxy.MintedExactly` | frontend/server/handlers/tensorboard-proxy.ts:103-234 | a minted token gives back its names if both are labels and is refused otherwise, for all names and any MAC |
| `TensorboardProxy.ViewerAccepted` | frontend/server/k8s-helper.ts:81-84 | so a viewer named `viewer-` and 40 hexadecimal digits is accepted in every namespace |
| `TensorboardProxy.OtherNamesRefused` | frontend/server/handlers/tensorboard-proxy.ts:221-228 | no token, signed or not, is accepted for a name with a dot, a slash or a capital, with a dash at an end, empty or of more than 63 characters |
| `TensorboardProxy.MintedPathSpelled` | frontend/server/handlers/tensorboard-proxy.ts:103-115 | the created path, spelled out: prefix, encoded object, dot, encoded digest, slash |
| `TensorboardProxy.RewriteCarriesToken` | frontend/server/handlers/tensorboard-proxy.ts:273-297 | the proxy route reads the token of the referer and the request's own path off the rewritten request, the query is kept, and a second pass changes nothing; without a referer, or when exempt, the request stays as it is |
| `TensorboardProxy.RewriteExactly` | frontend/server/handlers/tensorboard-proxy.ts:157-157 | the route reads the token unchanged if and only if all its characters are unreserved |
| `TensorboardProxy.MintedReferer` | frontend/server/handlers/tensorboard-proxy.ts:273-297 | a minted token survives the rewriting, with the request's own path, and is accepted for the same names |
| `Release.StepsDistinct` | release/kfpr/steps.py:795-843 | no flow names a step twice |
| `Release.StepsExactly` | release/kfpr/steps.py:795-843 | a release has exactly the steps its kind and its two flags ask for, in one fixed order |
| `Release.FlowsSpelled` | release/kfpr/steps.py:795-843 | the flows with all their steps, spelled out |
| `Release.RunRunsPending` | release/kfpr/steps.py:846-866 | `run` starts the pending steps in order, each once, up to the first that fails, and checkpoints exactly those that succeeded |
| `Release.NextAllIsRun` | release/kfpr/cli.py:230-264 | on a valid checkpoint, `next` until nothing is pending has the handler trace and the checkpoint of one `run` |
| `Release.DriversAgreeExactly` | release/kfpr/cli.py:237-264 | the two drivers agree if and only if the checkpoint is valid or nothing is pending |
| `Release.ReachableDriversAgree` | release/kfpr/cli.py:229-336 | after any mixture of `run`, `next`, `done`, `reset-step` and `goto`, with `done` naming steps of this flow, the checkpoint is valid and the two drivers agree |
| `Release.DriversDisagree` | release/kfpr/cli.py:289-299 | `done` for a step of another kind of release makes them disagree |
| `Release.GotoResumes` | release/kfpr/cli.py:317-336 | after `goto s` the next step is s, and `run` starts exactly the steps from s on, in order |
| `Release.ResetUndoesDone` | release/kfpr/core.py:187-198 | resetting a step undoes marking it and touches no other |
| `Release.ReleaseState.RunSteps` | release/kfpr/steps.py:846-866 | the loop with its saves leaves file and trace as `RunFrom` says |
| `Release.ReleaseState.NextCommand` | release/kfpr/cli.py:230-264 | one `next` leaves file and trace as `NextOnce` says |
| `Release.ReleaseState.GotoCommand` | release/kfpr/cli.py:317-336 | the file holds exactly the steps before the chosen one; the error exits change nothing |
| `Release.ReleaseState.DoneCommand` | release/kfpr/cli.py:289-299 | marks any step of any flow; an unknown name changes nothing |
| `Release.ReleaseState.ResetStepCommand` | release/kfpr/cli.py:303-313 | removes every occurrence of the step |
| `ReleaseCrash.StepInv` | release/kfpr/steps.py:855-866 | every action of the process, and dying at any of them, keeps the checkpoint a prefix of the flow and the process one step ahead of it at most |
| `ReleaseCrash.SaveIsAtomic` | release/kfpr/core.py:153-174 | the file only ever changes from one whole checkpoint to the next whole one |
| `ReleaseCrash.SavedNeverRestarts` | release/kfpr/steps.py:859-866 | a step whose checkpoint was saved never starts again |
| `ReleaseCrash.CrashSafe` | release/kfpr/core.py:153-174 | over all histories of `run` and `next` with death anywhere: the checkpoint is a prefix, a handler starts only when exactly its predecessors are saved, and a completed handler reruns only if the process died between its return and the save |
| `ReleaseCrash.UninterruptedDriver` | release/kfpr/steps.py:846-866 | every `run` and every `next` that is not interrupted ends with the checkpoint and the handlers that `RunFrom` and `NextOnce` give |
| `ReleaseCrash.SomeUninterrupted` | release/kfpr/steps.py:855-866 | from every reachable state there is such an end |
| `GlobListing.KeyMatchesGlob` | frontend/server/handlers/artifacts.ts:882-886 | splitting on runs of stars and joining with `.*` matches exactly what a character-by-character glob matches, line ends included |
| `GlobListing.OneStarExactly` | frontend/server/handlers/artifacts.ts:882-886 | a key with one star matches exactly the names that fill the star with text, slashes included, without a line feed, carriage return, line or paragraph separator |
| `GlobListing.MatchHasPrefix` | frontend/server/handlers/artifacts.ts:871-871 | whatever matches starts with the text before the first star |
| `GlobListing.PrefixExactly` | frontend/server/handlers/artifacts.ts:871-871 | the prefix is the text up to the first star |
| `GlobListing.PrefixLosesNothing` | frontend/server/handlers/artifacts.ts:871-887 | for every bucket and key, listing by prefix and filtering gives what the glob selects from the whole bucket |
| `GlobListing.AllNamedExactly` | frontend/server/gcs-helper.ts:61-76 | the names of all pages are those of their items in order, without the missing and the empty ones |
| `GlobListing.ListObjectNames` | frontend/server/gcs-helper.ts:61-76 | following the page tokens collects all names of all pages in order, without the missing and empty ones |
| `GlobListing.MatchingFiles` | frontend/server/handlers/artifacts.ts:871-887 | however the answer is cut into pages, the files are those the wildcards select |
| `VolumePaths.RelativeKeepsNames` | frontend/server/utils.ts:292-314 | an accepted relative path keeps the names along it and has no parent segments |
| `VolumePaths.NormalizeRelativeExactly` | frontend/server/utils.ts:292-314 | a relative path is accepted if and only if it is empty, or has no NUL, no leading slash, no parent segment and either names something or ends in a slash; the text is its names joined by slashes, with its slash at the end |
| `VolumePaths.ParentUndoes` | frontend/server/utils.ts:180-183 | two dots take back the name before them wherever the two stand in a path |
| `VolumePaths.ParentAtStart` | frontend/server/utils.ts:180-183 | at the root they do nothing, and at the start of a relative path they stay |
| `VolumePaths.AbsoluteNames` | frontend/server/utils.ts:180-183 | a normalised absolute path is a slash and names, none of them two dots |
| `VolumePaths.AbsoluteSpelled` | frontend/server/utils.ts:180-183 | the text of a normalised absolute path |
| `VolumePaths.JoinedNames` | frontend/server/utils.ts:185-202 | joining appends the names and stays absolute |
| `VolumePaths.BelowNames` | frontend/server/utils.ts:194-201 | cutting the sub path off leaves the file's names without those of the sub path |
| `VolumePaths.ResolvedInsideMount` | frontend/server/utils.ts:167-208 | every resolved path is the mount's names followed by the file's names below the sub path, without parent segments |
| `VolumePaths.PickedResolvesExactly` | frontend/server/utils.ts:134-165 | once a mount is picked, resolving succeeds if and only if its path is absolute and, without a sub path, the file path is acceptable |
| `VolumePaths.FoundInsideMount` | frontend/server/utils.ts:91-165 | whatever is found lies below the root returned with it |
| `VolumePaths.FindMount` | frontend/server/utils.ts:135-152 | the picked mount is the first that suits volume and file; none is picked only when none suits |
| `VolumePaths.FindContainer` | frontend/server/utils.ts:110-121 | the first container with one of the names is searched, and without names the first one |
| `VolumePaths.PickExactly` | frontend/server/utils.ts:103-155 | which mount is picked: the first that suits of the container searched; and which error is reported, in this order, if and only if: no such volume, no such container, no such mount |
| `VolumePaths.SuitsSpelled` | frontend/server/utils.ts:135-145 | a mount suits if it is of the volume and its sub path, if it has one, is the file or a directory above it |
| `Decimal.ReadPrint` | frontend/mock-backend/mock-api-middleware.ts:316-316 | a printed number is read back |
| `Decimal.PrintSpelled` | frontend/mock-backend/mock-api-middleware.ts:316-316 | digits are printed highest first |
| `Paging.FetchAll` | tools/k8s-native/migration.py:48-70 | following the tokens of `getPage` collects the whole list once, in order, for every page size |
| `Paging.EndExactly` | frontend/src/components/CustomTable.tsx:616-625 | a finished page change leaves the table in order if and only if the token list still reaches its page |
| `Paging.TokenStoredOnce` | frontend/src/components/CustomTable.tsx:618-620 | two overlapping loads of one page store the next token once |
| `Paging.ResetDuringLoad` | frontend/src/components/CustomTable.tsx:658-674 | exactly which page changes survive a sort that finishes first, whatever they bring |
| `Paging.AnyServerOk` | frontend/src/components/CustomTable.tsx:606-674 | for an arbitrary server, answers in any order and overlapping page changes: the page shown always has a token, is at most the greatest known page, and the next page's token is known unless this is the last; tokens are only ever appended until the table starts over |
| `Paging.LoadAccurate` | frontend/src/components/CustomTable.tsx:606-626 | a page change shows the rows of the page it says it shows, keeps every stored token the offset of its page, and a known greatest page the last one |
| `Paging.SliceSpelled` | frontend/mock-backend/mock-api-middleware.ts:308-319 | the rows of a page: 20 a page unless another number is asked for |
| `Paging.PageTurned` | frontend/src/components/CustomTable.tsx:606-626 | turning the page shows the rows of the page before, or of the next one as long as there is one |
| `Paging.ResetAccurate` | frontend/src/components/CustomTable.tsx:658-674 | asking for the first page again and starting over leaves the right rows and tokens |
| `Paging.RestartAccurate` | frontend/src/components/CustomTable.tsx:592-634 | a sort or a new page size makes the table accurate, whatever it was before |
| `Paging.FilterExactly` | frontend/src/components/CustomTable.tsx:547-556 | a filter keeps the table accurate if and only if the first page is shown or nothing is left to show |
| `Paging.FilterOnSecondPage` | frontend/src/components/CustomTable.tsx:499-556 | on any list of more than two pages: going to the second page and filtering shows rows n to 2n as the first page, with the token of the third page as that of the second |
| `Paging.UseAccurate` | frontend/src/components/CustomTable.tsx:497-674 | over every sequence of clicks, answers in any order, sorts, page sizes, and filters as above, pages, rows and tokens stay right |
| `Paging.CustomTable.constructor` | frontend/src/components/CustomTable.tsx:232-296 | a new table after its first load |
| `Paging.CustomTable.BeginPageChange` | frontend/src/components/CustomTable.tsx:606-614 | clamps the page and starts a load |
| `Paging.CustomTable.FinishPageChange` | frontend/src/components/CustomTable.tsx:616-625 | pushes the token only if it is new and sets both page numbers |
| `Paging.CustomTable.AnswerArrives` | frontend/src/components/CustomTable.tsx:612-625 | finishes the load whose answer came, whichever it is |
| `Paging.CustomTable.ResetToFirstPage` | frontend/src/components/CustomTable.tsx:658-674 | starts the page numbers and tokens over |
| `Paging.CustomTable.RequestSort` | frontend/src/components/CustomTable.tsx:592-604 | reloads with the empty token and starts over |
| `Paging.CustomTable.RequestFilter` | frontend/src/components/CustomTable.tsx:547-556 | reloads with the token of the page shown and starts over |
| `Paging.CustomTable.RequestRowsPerPage` | frontend/src/components/CustomTable.tsx:628-634 | reloads with the empty token and the new size and starts over |
| `Paging.CustomTable.Use` | frontend/src/components/CustomTable.tsx:497-674 | any sequence of user actions and answers leaves the state that `ActAll` gives, with the page order intact |
| `PrChecks.RememberReduces` | release/kfpr/core.py:634-640 | one more run keeps the dictionary equal to the latest run of every check, ties going to the later entry |
| `PrChecks.LatestExtended` | release/kfpr/core.py:636-640 | how one more run changes which runs are latest, in both directions |
| `PrChecks.LatestUnique` | release/kfpr/core.py:638-640 | a check has one latest run |
| `PrChecks.SupersededIsIgnored` | release/kfpr/core.py:638-647 | leaving a run out that a younger one of its check supersedes changes no latest run, so it decides nothing |
| `PrChecks.OrderIrrelevant` | release/kfpr/core.py:634-640 | with distinct times the order of the list does not matter |
| `PrChecks.Poll` | release/kfpr/core.py:634-659 | raises if and only if a latest run has a conclusion other than SUCCESS, NEUTRAL and SKIPPED or the state FAILURE or ERROR; returns if and only if every latest run has none of these and the state COMPLETED, SUCCESS, NEUTRAL or SKIPPED |
| `PrChecks.Watch` | release/kfpr/core.py:617-659 | the watch ends at the first poll that decides, with that poll's verdict |

## Left out

- The Kubernetes, MLMD, Google Cloud Storage, GitHub and file services appear as steps of the environment or as lists of what they answer.
- Metadata writer: debug files, reading the Argo template, component spec and arguments, linking input artifacts, artifact types, and the namespace choice; the tests for TFX and KFP v2 pods are one flag per pod.
- Metadata writer: a pod name belongs to one workflow and is not reused; only the writer sets its labels; a published outputs annotation and the completed label stay; output names are those left after prefix stripping and the dictionary, hence distinct; an exception falls at one of the points `Fault` lists.
- `Contexts.ContextClient.Serve`: other writers add contexts only under new names, as the store's uniqueness demands within a type; failures of the store itself are not part of it.
- `TaskPool.RunPool`: `generateTargetsParallel` around it is not modelled; a concurrency that is no integer is not either.
- `ContainerDumps.DumpsExactly`: placeholders other than input values print as the strings they are; names are identifiers, as the compiler demands of component inputs, so no name needs escaping in the pattern; a number is any text of the characters that numbers print with; keys that are not strings are given by their text; strings hold no lone surrogates.
- `GrpcWeb.DecodeGrpcWebResponse`: the texts of the error messages, `grpc-message` included, are not modelled; the text decoder is a parameter; a status is an unbounded number.
- The rest of `mlmd-validator.ts` after decoding is left out.
- `TensorboardProxy.JsonExactly`: of all the texts `JSON.parse` reads as these two names only the one `JSON.stringify` prints is parsed; other layouts, escapes and further fields are not.
- `TensorboardProxy.AcceptedExactly`: the MAC is an arbitrary function of the payload bytes; JSON is the two-field object without escapes that minting prints, so a signed text in another layout is rejected here and read by `JSON.parse`; the payload is not decoded and re-encoded as UTF-8 before signing; a signature with characters beyond ASCII makes the real comparison throw, which ends in an error response instead of a refusal.
- `Base64Url.RoundTrip`: padding characters are skipped like all others outside the alphabet.
- `TensorboardProxy.RewriteCarriesToken`: a referer is given by its path; document navigations and routes of the UI server are one `exempt` flag, and the property is about requests that are not exempt.
- TensorBoard proxy: checks of the forwarded path, the target URL, authorisation.
- Release flow: dry runs, prompts and answers, which are fixed; `run` with single steps; state files that are no JSON; what the handlers do.
- `Release.ReleaseState.NextCommand`: the clean-up of the temporary file after a failed save is not modelled; `ReleaseCrash` allows it to stay.
- `GlobListing.MatchingFiles`: downloading and concatenating the files is not modelled.
- `VolumePaths.FoundInsideMount`: symbolic links, which `openFileWithinRoot` deals with, are not part of paths as texts; error texts are constructors.
- `Paging.FetchAll`: tokens that are no decimal numerals, and negative or fractional sizes, are not modelled; a token that is not all digits reads as the start.
- `Paging.CustomTable.Use`: a sort, filter or size change happens only while no page change is under way; `Paging.ResetDuringLoad` says what breaks otherwise. The list behind the server changes only with a sort or a filter (`Paging.AnyServerOk` has no such limit). Rendering, debouncing, local storage and the parents' own calls of `reload` are not modelled.
- `PrChecks.Watch`: time stamps are numbers with the order of their texts; the name is taken as found; printing, reported links and sleeping are not modelled, and the watch is looked at over finitely many polls.
- `PreviewStream`, `get_version_name`, code generation, the text-editing release steps and all other parts of the repository.
