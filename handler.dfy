/**
 * The request orchestrator: validate the request, upload its images, open
 * the progress socket, queue the workflow, wait for completion, collect the
 * outputs and answer with one encoded artifact. Every backend effect is an
 * input (upload answers, the frames the socket delivers, the stored history)
 * or an uninterpreted function (`submit` for the job id the queue assigns,
 * `fetch` for downloads, `decode`/`encode` for base64); the backend calls the
 * handler would make are returned, in order, as a trace.
 */
module Handler {
  import opened Wrappers
  import opened Backend
  import opened Watcher
  import opened Collector
  import opened Upload

  /** The `input` object of a request; a JSON null is None. */
  datatype Request = Request(images: Option<seq<UploadItem>>, workflow: Option<Workflow>, outputNodeId: Option<NodeId>)

  datatype Response =
    | ErrorEnvelope(message: string)              // status "error" with a message
    | UploadRejected(upload: UploadResult)        // the upload outcome, returned as it is
    | Completed(output: Option<string>)           // status "COMPLETED", output.message
    | NoCompletion                                // the frames ran out before the terminal event
    | HistoryMissing                              // the history holds no record of the job

  const InvalidInputMessage := "Invalid input: Missing images or workflow"

  /** What the collection step yields. */
  datatype ImagesOutcome = Images(outputs: Outputs) | NeverCompleted | NotInHistory

  /**
   * The artifact the response carries: the last artifact of the last node
   * that has any, or None when no node has one.
   */
  function LastArtifact(out: Outputs): (r: Option<Blob>)
    ensures r.None? <==> forall k :: 0 <= k < |out| ==> out[k].1 == []
    ensures r.Some? ==>
      exists k :: 0 <= k < |out| && out[k].1 != [] && r.value == out[k].1[|out[k].1| - 1] &&
                  forall j :: k < j < |out| ==> out[j].1 == []
  {
    if |out| == 0 then None
    else
      var last := out[|out| - 1].1;
      if last != [] then Some(last[|last| - 1]) else LastArtifact(out[..|out| - 1])
  }

  function Encoded(b: Option<Blob>, encode: Blob -> string): Option<string> {
    if b.Some? then Some(encode(b.value)) else None
  }

  /** The artifact the response carries is the last one in the concatenation of all nodes' lists. */
  lemma {:induction false} LastArtifactIsLastOfAll(out: Outputs)
    ensures var all := Artifacts(out);
      LastArtifact(out) == if all == [] then None else Some(all[|all| - 1])
  {
    if |out| > 0 {
      LastArtifactIsLastOfAll(out[..|out| - 1]);
    }
  }

  /**
   * The selection loop: walk every node and every artifact, overwriting the
   * encoded value each time, so the last one visited wins.
   */
  method SelectLastArtifact(out: Outputs, encode: Blob -> string) returns (message: Option<string>)
    ensures message == Encoded(LastArtifact(out), encode)
  {
    message := None;
    for i := 0 to |out|
      invariant message == Encoded(LastArtifact(out[..i]), encode)
    {
      assert out[..i + 1][..i] == out[..i];
      var blobs := out[i].1;
      ghost var before := message;
      for j := 0 to |blobs|
        invariant message == if j == 0 then before else Some(encode(blobs[j - 1]))
      {
        message := Some(encode(blobs[j]));
      }
    }
    assert out[..|out|] == out;
  }

  /**
   * The backend calls that follow the queueing of job `job`: none when the
   * frames hold no terminal event for it; otherwise the history lookup, then
   * one download per requested reference when the history has the job.
   */
  function AfterQueue(frames: seq<Frame>, job: JobId, history: map<JobId, Manifest>,
                      outputNodeId: Option<NodeId>): seq<Call> {
    if FirstTerminal(frames, job).None? then []
    else [GetHistory(job)] +
         (if job in history then Views(Requested(history[job], outputNodeId)) else [])
  }

  /**
   * Queue the workflow, wait on the frames for its completion, then look the
   * job up in the history and collect its outputs.
   */
  method GetImages(workflow: Workflow, clientId: ClientId, outputNodeId: Option<NodeId>,
                   submit: QueueRequest -> JobId, frames: seq<Frame>,
                   history: map<JobId, Manifest>, fetch: ArtifactRef -> Blob)
    returns (r: ImagesOutcome, calls: seq<Call>)
    ensures var job := submit(QueueRequest(workflow, clientId));
      calls == [PostPrompt(QueueRequest(workflow, clientId))] + AfterQueue(frames, job, history, outputNodeId)
    ensures var job := submit(QueueRequest(workflow, clientId));
      r == if FirstTerminal(frames, job).None? then NeverCompleted
           else if job !in history then NotInHistory
           else Images(Collect(history[job], outputNodeId, fetch))
  {
    var request := QueueRequest(workflow, clientId);
    var promptId := submit(request);
    calls := [PostPrompt(request)];
    var stop := WaitForCompletion(frames, promptId);
    if stop.None? {
      return NeverCompleted, calls;
    }
    if promptId !in history {
      return NotInHistory, calls + [GetHistory(promptId)];
    }
    var out, requested := CollectOutputs(history[promptId], outputNodeId, fetch);
    calls := calls + ([GetHistory(promptId)] + Views(requested));
    r := Images(out);
  }

  /**
   * The message of a completed response is the encoding of the last
   * artifact reference the collector requested, or None if it requested none.
   */
  lemma CompletedMessage(m: Manifest, filter: Option<NodeId>, fetch: ArtifactRef -> Blob, encode: Blob -> string)
    ensures var refs := Requested(m, filter);
      Encoded(LastArtifact(Collect(m, filter, fetch)), encode) ==
      if refs == [] then None else Some(encode(fetch(refs[|refs| - 1])))
  {
    ArtifactsOfCollect(m, filter, fetch);
    LastArtifactIsLastOfAll(Collect(m, filter, fetch));
  }

  /** The job id the backend assigns to a valid request. */
  function JobOf(req: Request, clientId: ClientId, submit: QueueRequest -> JobId): JobId
    requires req.workflow.Some?
  {
    submit(QueueRequest(req.workflow.value, clientId))
  }

  predicate Valid(req: Request) {
    req.images.Some? && req.workflow.Some?
  }

  /**
   * What the handler answers and which backend calls it makes, in order. A
   * request with a null image list or workflow is rejected outright; a
   * rejected upload ends the request with the upload outcome; otherwise the
   * socket is opened, the job queued and awaited, and the response carries
   * the last collected artifact.
   */
  function Handle(req: Request, clientId: ClientId, answers: seq<Answer>,
                  submit: QueueRequest -> JobId, frames: seq<Frame>,
                  history: map<JobId, Manifest>, fetch: ArtifactRef -> Blob,
                  decode: string -> Blob, encode: Blob -> string): (Response, seq<Call>)
    requires Valid(req) ==> |answers| == |req.images.value|
  {
    if !Valid(req) then (ErrorEnvelope(InvalidInputMessage), [])
    else
      var upload := Aggregate(req.images, answers);
      var uploads := Uploads(Forms(req.images.value, decode));
      if upload.status == Error then (UploadRejected(upload), uploads)
      else
        var job := JobOf(req, clientId, submit);
        var calls := uploads + [OpenSocket(clientId)] +
                     ([PostPrompt(QueueRequest(req.workflow.value, clientId))] +
                      AfterQueue(frames, job, history, req.outputNodeId));
        if FirstTerminal(frames, job).None? then (NoCompletion, calls)
        else if job !in history then (HistoryMissing, calls)
        else (Completed(Encoded(LastArtifact(Collect(history[job], req.outputNodeId, fetch)), encode)), calls)
  }

  /** The request handler: validation, uploads, socket, queueing, waiting, collection, selection. */
  method HandlePost(req: Request, clientId: ClientId, answers: seq<Answer>,
                    submit: QueueRequest -> JobId, frames: seq<Frame>,
                    history: map<JobId, Manifest>, fetch: ArtifactRef -> Blob,
                    decode: string -> Blob, encode: Blob -> string)
    returns (resp: Response, calls: seq<Call>)
    requires Valid(req) ==> |answers| == |req.images.value|
    ensures (resp, calls) == Handle(req, clientId, answers, submit, frames, history, fetch, decode, encode)
  {
    if req.images.None? || req.workflow.None? {
      return ErrorEnvelope(InvalidInputMessage), [];
    }
    var uploadResult, posted := UploadImages(req.images, answers, decode);
    calls := Uploads(posted);
    if uploadResult.status == Error {
      return UploadRejected(uploadResult), calls;
    }
    calls := calls + [OpenSocket(clientId)];
    var images, imageCalls := GetImages(req.workflow.value, clientId, req.outputNodeId,
                                        submit, frames, history, fetch);
    calls := calls + imageCalls;
    match images
    case NeverCompleted =>
      resp := NoCompletion;
    case NotInHistory =>
      resp := HistoryMissing;
    case Images(out) =>
      var message := SelectLastArtifact(out, encode);
      resp := Completed(message);
  }

  /** A request whose image list or workflow is null gets the error envelope, and no backend call is made. */
  lemma RejectsInvalidRequest(req: Request, clientId: ClientId, answers: seq<Answer>,
                              submit: QueueRequest -> JobId, frames: seq<Frame>,
                              history: map<JobId, Manifest>, fetch: ArtifactRef -> Blob,
                              decode: string -> Blob, encode: Blob -> string)
    requires Valid(req) ==> |answers| == |req.images.value|
    requires req.images.None? || req.workflow.None?
    ensures Handle(req, clientId, answers, submit, frames, history, fetch, decode, encode) ==
            (ErrorEnvelope(InvalidInputMessage), [])
  {
  }

  /**
   * When some upload is rejected the handler returns the upload outcome; its
   * only backend calls are the uploads, one per item: no socket is opened and
   * nothing is queued.
   */
  lemma UploadRejectionShortCircuits(req: Request, clientId: ClientId, answers: seq<Answer>,
                                     submit: QueueRequest -> JobId, frames: seq<Frame>,
                                     history: map<JobId, Manifest>, fetch: ArtifactRef -> Blob,
                                     decode: string -> Blob, encode: Blob -> string)
    requires Valid(req) ==> |answers| == |req.images.value|
    requires Valid(req)
    requires exists j :: 0 <= j < |answers| && !Accepted(answers[j])
    ensures var (resp, calls) := Handle(req, clientId, answers, submit, frames, history, fetch, decode, encode);
      resp == UploadRejected(Aggregate(req.images, answers)) && resp.upload.status == Error &&
      calls == Uploads(Forms(req.images.value, decode)) &&
      forall k :: 0 <= k < |calls| ==> calls[k].PostUpload?
  {
    AggregateStatus(req.images, answers);
  }

  /**
   * When every upload is accepted (in particular for an empty image list)
   * the uploads come first, then the socket is opened, then the job is
   * queued; the watcher and the history decide the rest.
   */
  lemma AcceptedUploadsThenQueue(req: Request, clientId: ClientId, answers: seq<Answer>,
                                 submit: QueueRequest -> JobId, frames: seq<Frame>,
                                 history: map<JobId, Manifest>, fetch: ArtifactRef -> Blob,
                                 decode: string -> Blob, encode: Blob -> string)
    requires Valid(req) ==> |answers| == |req.images.value|
    requires Valid(req)
    requires forall j :: 0 <= j < |answers| ==> Accepted(answers[j])
    ensures var (resp, calls) := Handle(req, clientId, answers, submit, frames, history, fetch, decode, encode);
      var job := JobOf(req, clientId, submit);
      var n := |req.images.value|;
      |calls| >= n + 2 &&
      calls[..n] == Uploads(Forms(req.images.value, decode)) &&
      calls[n] == OpenSocket(clientId) &&
      calls[n + 1] == PostPrompt(QueueRequest(req.workflow.value, clientId)) &&
      calls[n + 2..] == AfterQueue(frames, job, history, req.outputNodeId) &&
      (FirstTerminal(frames, job).None? ==> resp == NoCompletion) &&
      (FirstTerminal(frames, job).Some? && job !in history ==> resp == HistoryMissing) &&
      (FirstTerminal(frames, job).Some? && job in history ==> resp.Completed?)
  {
    AggregateStatus(req.images, answers);
    var job := JobOf(req, clientId, submit);
    var uploads := Uploads(Forms(req.images.value, decode));
    var tail := AfterQueue(frames, job, history, req.outputNodeId);
    var open, queue := OpenSocket(clientId), PostPrompt(QueueRequest(req.workflow.value, clientId));
    assert Handle(req, clientId, answers, submit, frames, history, fetch, decode, encode).1 ==
           uploads + [open] + ([queue] + tail);
    QueueTraceSlices(uploads, open, queue, tail);
  }

  /** The parts of the trace of an accepted request, recovered by position. */
  lemma QueueTraceSlices<T>(uploads: seq<T>, open: T, queue: T, tail: seq<T>)
    ensures var calls := uploads + [open] + ([queue] + tail);
      |calls| == |uploads| + 2 + |tail| && calls[..|uploads|] == uploads &&
      calls[|uploads|] == open && calls[|uploads| + 1] == queue && calls[|uploads| + 2..] == tail
  {
    var calls := uploads + [open] + ([queue] + tail);
    assert calls[..|uploads|] == uploads;
    assert calls[|uploads| + 2..] == tail;
  }

  /**
   * A completed response happens exactly when the request is valid, every
   * upload is accepted, the terminal event for the job arrives and the
   * history has the job; its message is the encoding of the last artifact
   * reference the collector downloaded, or None when it downloaded none.
   */
  lemma CompletedCarriesLastArtifact(req: Request, clientId: ClientId, answers: seq<Answer>,
                                     submit: QueueRequest -> JobId, frames: seq<Frame>,
                                     history: map<JobId, Manifest>, fetch: ArtifactRef -> Blob,
                                     decode: string -> Blob, encode: Blob -> string)
    requires Valid(req) ==> |answers| == |req.images.value|
    ensures var resp := Handle(req, clientId, answers, submit, frames, history, fetch, decode, encode).0;
      resp.Completed? <==>
        Valid(req) && (forall j :: 0 <= j < |answers| ==> Accepted(answers[j])) &&
        FirstTerminal(frames, JobOf(req, clientId, submit)).Some? &&
        JobOf(req, clientId, submit) in history
    ensures var resp := Handle(req, clientId, answers, submit, frames, history, fetch, decode, encode).0;
      resp.Completed? ==>
        var refs := Requested(history[JobOf(req, clientId, submit)], req.outputNodeId);
        resp.output == if refs == [] then None else Some(encode(fetch(refs[|refs| - 1])))
  {
    if Valid(req) {
      AggregateStatus(req.images, answers);
      var job := JobOf(req, clientId, submit);
      if job in history {
        CompletedMessage(history[job], req.outputNodeId, fetch, encode);
      }
    }
  }
}
