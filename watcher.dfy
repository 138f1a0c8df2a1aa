/**
 * The completion watcher: after the job is queued, the bridge reads the
 * progress socket until the backend reports that this job has finished
 * executing. The live socket is modelled as the finite sequence of frames it
 * delivers.
 */
module Watcher {
  import opened Wrappers
  import opened Backend

  /** A frame on the progress socket: a binary preview, or a parsed status event. */
  datatype Frame =
    | Binary(payload: Blob)
    | Text(typ: string, node: Option<NodeId>, promptId: JobId)

  /** The one event that ends the wait: "executing" with no current node, for this job. */
  predicate IsTerminal(f: Frame, jobId: JobId) {
    f.Text? && f.typ == "executing" && f.node.None? && f.promptId == jobId
  }

  /**
   * Position of the first terminal frame, or None when the frames hold none.
   * The contract characterises the result completely.
   */
  function FirstTerminal(frames: seq<Frame>, jobId: JobId): (r: Option<nat>)
    ensures r.Some? ==> r.value < |frames| && IsTerminal(frames[r.value], jobId)
    ensures r.Some? ==> forall j :: 0 <= j < r.value ==> !IsTerminal(frames[j], jobId)
    ensures r.None? <==> forall j :: 0 <= j < |frames| ==> !IsTerminal(frames[j], jobId)
  {
    if |frames| == 0 then None
    else if IsTerminal(frames[0], jobId) then Some(0)
    else match FirstTerminal(frames[1..], jobId)
      case None => None
      case Some(k) => Some(k + 1)
  }

  /**
   * The receive loop: binary frames and non-matching text events are skipped;
   * the loop stops at the first terminal event and returns its position.
   * None means the frames ran out first (the live loop would keep blocking).
   */
  method WaitForCompletion(frames: seq<Frame>, jobId: JobId) returns (stop: Option<nat>)
    ensures stop == FirstTerminal(frames, jobId)
  {
    var i := 0;
    while i < |frames|
      invariant 0 <= i <= |frames|
      invariant forall j :: 0 <= j < i ==> !IsTerminal(frames[j], jobId)
    {
      var out := frames[i];
      if out.Text? {
        if out.typ == "executing" {
          if out.node.None? && out.promptId == jobId {
            return Some(i);
          }
        }
      }
      i := i + 1;
    }
    return None;
  }

  /**
   * Any number of stray frames (previews, other event types, other jobs, a
   * node still running) in front of the stream only shift where the wait ends.
   */
  lemma {:induction false} StrayFramesIgnored(stray: seq<Frame>, rest: seq<Frame>, jobId: JobId)
    requires forall j :: 0 <= j < |stray| ==> !IsTerminal(stray[j], jobId)
    ensures FirstTerminal(stray + rest, jobId) ==
            match FirstTerminal(rest, jobId)
            case None => None
            case Some(k) => Some(|stray| + k)
  {
    if |stray| > 0 {
      assert (stray + rest)[0] == stray[0];
      assert (stray + rest)[1..] == stray[1..] + rest;
      StrayFramesIgnored(stray[1..], rest, jobId);
    } else {
      assert stray + rest == rest;
    }
  }
}
