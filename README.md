# A verified model of the comfy-middleware request bridge

The bridge turns the asynchronous job API of an image-generation backend into
one synchronous HTTP call. A request carries input images, a workflow document
and an optional output node id. The bridge uploads the images, opens a
progress socket keyed by a fresh client id, and queues the workflow. It then
reads socket frames until the backend reports that this job has finished, walks
the job's output manifest in the backend's history, downloads the artifacts
named there, and answers with one base64-encoded artifact: the last one it
downloaded.

This project models the decision logic of that sequence, as written in
`main.py`, and proves its properties. Every network effect becomes either an
input or an uninterpreted function:

- the backend's answers to the upload posts are an input sequence of
  `Answer(statusCode, text)`, with one answer per item in order;
- the job id the queue assigns is `submit(QueueRequest(workflow, clientId))`;
- the progress socket is the finite sequence of `Frame`s it delivers;
- the stored history is an input `map<JobId, Manifest>`;
- a download is `fetch(ArtifactRef(filename, subfolder, type))`;
- base64 decoding and encoding are `decode` and `encode`;
- the client id (a fresh UUID in the program) is an input.

The backend calls the bridge would make are returned, in order, as a trace of
`Call` values. This makes statements such as "no call is made" or "the job is
never queued" provable.

Modules, one file each:

- `Wrappers` (`wrappers.dfy`): `Option`.
- `Backend` (`backend.dfy`): the shared identifiers, the payloads, and the
  `Call` trace.
- `Watcher` (`watcher.dfy`): the receive loop that waits for the terminal
  `executing` event.
- `Collector` (`collector.dfy`): the walk over the history's `outputs`
  manifest.
- `Upload` (`upload.dfy`): `upload_images` and how it folds the per-item
  answers into one outcome.
- `Handler` (`handler.dfy`): `get_images` and `handle_post`. This covers
  validation, the short-circuit on upload failure, and the last-wins choice of
  the returned artifact.

The dictionary that parsing the history's JSON builds keeps its keys in insertion order and never repeats a key. A name repeated in the JSON text keeps its first position and takes the last value. So the
manifest and the collected result are sequences of `(node id, value)` pairs.
Storing a node's list in the result dictionary (`output_images[node_id] = ...`)
appends a pair. `Collector.CollectKeysDistinct` proves that the result again
never repeats a node id, so the sequence is a faithful dictionary.

Where the intended design and the code differ, the model follows the code:

- After a partial upload failure, the outcome lists only the failure messages. The success messages are dropped (main.py:107-118).
- A socket that closes before the terminal event is not reported as a channel error. The receive loop has no such outcome (main.py:43-53).
- A job that is missing from the history is not reported as an error envelope either. The lookup raises (main.py:55).

The handler's whole behaviour is the function `Handler.Handle`. The method `Handler.HandlePost` is proved to compute it, and the lemmas after it state what it means.

## Model

| member | source | states |
|---|---|---|
| `Watcher.FirstTerminal` | main.py:43-51 | The position of the first frame that is a text event of type `executing` with a null node and this job's id. None exactly when no frame qualifies. Every frame before the position is not terminal. |
| `Watcher.WaitForCompletion` | main.py:43-53 | The receive loop skips binary frames and non-matching text events. It stops exactly at the first terminal event and returns that event's position, or None when the frames run out first. |
| `Watcher.StrayFramesIgnored` | main.py:46-53 | Putting any number of non-terminal frames in front of the stream (previews, other event types, a running node, other jobs) never ends the wait early. It only shifts where the wait ends. |
| `Collector.FetchAll` | main.py:63-69 | One download per reference, in reference order. |
| `Collector.FetchEach` | main.py:63-65 | The per-kind loop appends the download of every reference, in order. |
| `Collector.FetchNode` | main.py:61-69 | A node's list holds the downloads of its `images` references, then those of its `gifs` references. A missing key contributes nothing. |
| `Collector.CollectOutputs` | main.py:55-72 | The manifest walk returns the collected result and the references it downloaded, in download order. |
| `Collector.CollectUnfiltered` | main.py:56-70 | With no output node id, every manifest node appears in manifest order. Each node maps to its images' downloads followed by its animations' downloads. A node with neither key maps to an empty list and is not omitted. |
| `Collector.CollectFilteredKeys` | main.py:59-60 | With an output node id, every node in the result is that node. |
| `Collector.CollectFiltered` | main.py:56-70 | With an output node id, the result is exactly that node with its artifacts when the manifest has it, and empty otherwise. |
| `Collector.CollectKeysDistinct` | main.py:70 | If the manifest never repeats a node id, the result never repeats one either. |
| `Collector.ArtifactsOfCollect` | main.py:61-70 | The concatenated artifacts of the result are exactly the downloads of the requested references, in request order. |
| `Upload.Forms` | main.py:94-103 | One upload form per item, in input order: the item's name, its decoded bytes as `image/png`, and the overwrite flag `"true"`. |
| `Upload.FailingIndices` | main.py:107-108 | The positions of the answers whose status code is not 200, strictly increasing, and every such position. |
| `Upload.UploadImages` | main.py:86-125 | A null or empty list gives status success, message "No images to upload", empty details and no post. Otherwise one form is posted per item, in order, with no early stop. The status is error exactly when some answer is not 200. The outcome equals the aggregate of the answers. |
| `Upload.AggregateStatus` | main.py:86-118 | An upload round has status error exactly when some answer is not 200. An empty round therefore never fails. |
| `Upload.FailuresEmptyIff` | main.py:107-118 | The list of error messages is empty exactly when every answer is 200, in both directions. |
| `Upload.FailuresAreRejectedItems` | main.py:107-118 | The error details hold one message per rejected item, in input order. Each message names the item and the backend's text. |
| `Upload.SuccessesWhenAllAccepted` | main.py:109-125 | When every answer is 200, the details hold one success message per item, in input order. |
| `Upload.UploadOutcome` | main.py:107-125 | For a non-empty list, an error outcome says "Some images failed to upload". Its details are, in order, the error message (item name and backend text) of each rejected item, one per rejected item. A success outcome says "All images uploaded successfully". Its details are one success message per item, in input order. |
| `Handler.LastArtifact` | main.py:157-162 | None exactly when every node's list is empty. Otherwise it is the last artifact of a node that has artifacts, and every later node has none. |
| `Handler.LastArtifactIsLastOfAll` | main.py:157-162 | The selected artifact is the last element of all nodes' lists concatenated in iteration order. |
| `Handler.SelectLastArtifact` | main.py:157-162 | The overwriting nested loop ends holding the encoding of the last artifact, or None when no node produced one. |
| `Handler.CompletedMessage` | main.py:155-169 | The completed message is the encoding of the download of the last artifact reference the collector requested, or None when it requested none. |
| `Handler.GetImages` | main.py:40-72 | The job is queued first. If no terminal frame arrives there is no history call. If the job is missing from the history the outcome says so. Otherwise the result is the collected manifest, after one history call and one download call per requested reference. |
| `Handler.HandlePost` | main.py:135-170 | The handler's response and its backend calls, in order, are exactly those that `Handler.Handle` describes. The four lemmas below prove what that means. |
| `Handler.RejectsInvalidRequest` | main.py:143-146 | A null image list or a null workflow gives the error envelope "Invalid input: Missing images or workflow", and no backend call is made. |
| `Handler.UploadRejectionShortCircuits` | main.py:148-151 | If any upload is rejected, the handler returns the upload outcome, which has status error. Its only backend calls are the uploads, one per item. No socket is opened and nothing is queued. |
| `Handler.AcceptedUploadsThenQueue` | main.py:148-155 | When every upload is accepted (including an empty image list, which passes validation), the calls are, in order: the uploads, opening the socket for the client id, queueing the workflow with that client id, and then the watcher's and collector's calls. No terminal event gives `NoCompletion`. A job missing from the history gives `HistoryMissing`. Otherwise the response is completed. |
| `Handler.CompletedCarriesLastArtifact` | main.py:155-169 | A response is completed exactly when all of these hold: the request is valid, every upload is accepted, the terminal event arrives, and the history has the job. Its message is the encoding of the download of the last artifact reference the collector requested, or None when it requested none. |

## Left out

- The HTTP, websocket and `urllib` transport (main.py:21-37, 106, 153-154): replaced by input sequences, a history map and the uninterpreted functions `submit` and `fetch`. Backend failures and exceptions from these calls are not modelled: `submit` and `fetch` always return a value.
- JSON parsing and serialisation (main.py:23, 25, 37, 47): text frames, the history and the request arrive already parsed. A text frame of a type other than `executing` still carries `node` and `promptId` fields, and the model never looks at them. The `KeyError` that a malformed message, a missing request key (`images`, `workflow`, `output_node_id`) or a malformed manifest entry would raise is not modelled.
- Base64 decoding and encoding (main.py:97, 162) are the uninterpreted functions `decode` and `encode`.
- Upload.UploadImages: decoding every payload is assumed to succeed, because `decode` is a total function. In the program, a malformed base64 payload makes `b64decode` raise (main.py:97). The loop then stops after the earlier items were already posted, and the handler produces no envelope. The model's "one post per item, no early stop" holds only for well-formed payloads.
- URL encoding of the view query (main.py:29-31) is a library call. The query is modelled as the `ArtifactRef` triple itself.
- Flask routing, the `/ping` endpoint, argparse, the `print` logging and the `stdout` reconfiguration (main.py:16, 45, 58, 92, 113, 120, 127-132, 139, 173-181).
- The output node id is modelled as a string. The program compares it with `!=` (main.py:59), so a JSON number such as `9` never equals a manifest key such as `"9"`. Every node is then skipped and the response carries no message. The model covers this case only as a string id that is absent from the manifest (the second ensures of `Collector.CollectFiltered`).
- UUID generation (main.py:137): the client id is an arbitrary input.
- Watcher.WaitForCompletion: works over a finite sequence of frames. When no terminal event occurs it returns None, and the handler answers `NoCompletion`. The program itself has no timeout and no outcome for a closed channel: it would keep blocking in `recv`, or raise if the socket failed.
- Handler.GetImages: the program raises `KeyError` when the job is absent from the history (main.py:55), and no response is produced. The model returns the distinct outcome `NotInHistory`, and the handler answers `HistoryMissing`.
- The HTTP status codes and JSON envelopes that Flask builds around the responses are not modelled. `Response` records only which envelope is returned and its contents.
