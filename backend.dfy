/**
 * The vocabulary shared by every component of the bridge: the identifiers it
 * passes around, the payloads it sends to the job-execution backend, and the
 * backend calls themselves. The backend is never contacted here: each call
 * the bridge would make is recorded as a `Call` value, so that the order and
 * the absence of calls can be stated and proved.
 */
module Backend {
  /** Raw bytes of an uploaded or downloaded image. */
  type Blob = seq<bv8>
  /** Backend-assigned id of one submitted workflow run. */
  type JobId = string
  /** Id of one node of the workflow graph. */
  type NodeId = string
  /** Per-request session token that keys the progress socket. */
  type ClientId = string
  /** The caller's workflow document, passed through uninterpreted. */
  type Workflow = string

  /** Body of the job-queue request: `{"prompt": ..., "client_id": ...}`. */
  datatype QueueRequest = QueueRequest(prompt: Workflow, clientId: ClientId)

  /** The `(filename, subfolder, type)` triple that names one stored artifact. */
  datatype ArtifactRef = ArtifactRef(filename: string, subfolder: string, folderType: string)

  /** The multipart form of one upload: the named image part and the overwrite flag. */
  datatype UploadForm = UploadForm(name: string, blob: Blob, mimeType: string, overwrite: string)

  /** One call the bridge makes to the backend. */
  datatype Call =
    | PostUpload(form: UploadForm)
    | OpenSocket(clientId: ClientId)
    | PostPrompt(request: QueueRequest)
    | GetHistory(jobId: JobId)
    | GetView(ref: ArtifactRef)

  /** One upload call per form, in order. */
  function Uploads(forms: seq<UploadForm>): (calls: seq<Call>)
    ensures |calls| == |forms|
    ensures forall k :: 0 <= k < |forms| ==> calls[k] == PostUpload(forms[k])
  {
    if |forms| == 0 then [] else Uploads(forms[..|forms| - 1]) + [PostUpload(forms[|forms| - 1])]
  }

  /** One retrieval call per artifact reference, in order. */
  function Views(refs: seq<ArtifactRef>): (calls: seq<Call>)
    ensures |calls| == |refs|
    ensures forall k :: 0 <= k < |refs| ==> calls[k] == GetView(refs[k])
  {
    if |refs| == 0 then [] else Views(refs[..|refs| - 1]) + [GetView(refs[|refs| - 1])]
  }
}
