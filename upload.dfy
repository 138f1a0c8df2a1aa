/**
 * Upload aggregation: every input image is decoded and posted to the
 * backend's upload endpoint, and the per-item answers are folded into one
 * outcome. The backend's answer to each post is an input (one per item, in
 * order); base64 decoding is the uninterpreted function `decode`.
 */
module Upload {
  import opened Wrappers
  import opened Backend

  /** One input image: its file name and its base64 payload. */
  datatype UploadItem = UploadItem(name: string, image: string)

  /** The backend's answer to one upload post. */
  datatype Answer = Answer(statusCode: int, text: string)

  datatype Status = Success | Error

  /** The `{status, message, details}` outcome of an upload round. */
  datatype UploadResult = UploadResult(status: Status, message: string, details: seq<string>)

  const NothingToUpload := "No images to upload"
  const SomeFailed := "Some images failed to upload"
  const AllUploaded := "All images uploaded successfully"

  /** A null image list holds no items. */
  function ItemsOf(images: Option<seq<UploadItem>>): seq<UploadItem> {
    if images.Some? then images.value else []
  }

  predicate Accepted(a: Answer) {
    a.statusCode == 200
  }

  function ErrorText(name: string, text: string): string {
    "Error uploading " + name + ": " + text
  }

  function SuccessText(name: string): string {
    "Successfully uploaded " + name
  }

  /** The form posted for one item: the decoded bytes as a PNG part, with overwrite on. */
  function Form(item: UploadItem, decode: string -> Blob): UploadForm {
    UploadForm(item.name, decode(item.image), "image/png", "true")
  }

  /** The forms posted for the items, one per item, in order. */
  function Forms(items: seq<UploadItem>, decode: string -> Blob): (forms: seq<UploadForm>)
    ensures |forms| == |items|
    ensures forall k :: 0 <= k < |items| ==> forms[k] == Form(items[k], decode)
  {
    if |items| == 0 then []
    else Forms(items[..|items| - 1], decode) + [Form(items[|items| - 1], decode)]
  }

  /** Error messages of the rejected items, in input order. */
  function Failures(items: seq<UploadItem>, answers: seq<Answer>): seq<string>
    requires |items| == |answers|
  {
    if |items| == 0 then []
    else
      var n := |items| - 1;
      Failures(items[..n], answers[..n]) +
      (if Accepted(answers[n]) then [] else [ErrorText(items[n].name, answers[n].text)])
  }

  /** Success messages of the accepted items, in input order. */
  function Successes(items: seq<UploadItem>, answers: seq<Answer>): seq<string>
    requires |items| == |answers|
  {
    if |items| == 0 then []
    else
      var n := |items| - 1;
      Successes(items[..n], answers[..n]) +
      (if Accepted(answers[n]) then [SuccessText(items[n].name)] else [])
  }

  /**
   * Positions of the rejected answers, in increasing order: a reference
   * description of which items failed, independent of the messages.
   */
  function FailingIndices(answers: seq<Answer>): (ix: seq<nat>)
    ensures forall k :: 0 <= k < |ix| ==> ix[k] < |answers| && !Accepted(answers[ix[k]])
    ensures forall k, l :: 0 <= k < l < |ix| ==> ix[k] < ix[l]
    ensures forall j :: 0 <= j < |answers| && !Accepted(answers[j]) ==> j in ix
  {
    if |answers| == 0 then []
    else
      var n := |answers| - 1;
      FailingIndices(answers[..n]) + (if Accepted(answers[n]) then [] else [n])
  }

  /** The outcome of an upload round, built from the answers. */
  function Aggregate(images: Option<seq<UploadItem>>, answers: seq<Answer>): UploadResult
    requires |answers| == |ItemsOf(images)|
  {
    var items := ItemsOf(images);
    if |items| == 0 then UploadResult(Success, NothingToUpload, [])
    else if Failures(items, answers) != [] then UploadResult(Error, SomeFailed, Failures(items, answers))
    else UploadResult(Success, AllUploaded, Successes(items, answers))
  }

  /**
   * Uploads every item, in order, without stopping at a rejection, and folds
   * the answers into one outcome. Returns the forms it posted, in order.
   */
  method UploadImages(images: Option<seq<UploadItem>>, answers: seq<Answer>, decode: string -> Blob)
    returns (result: UploadResult, posted: seq<UploadForm>)
    requires |answers| == |ItemsOf(images)|
    ensures result == Aggregate(images, answers)
    ensures posted == Forms(ItemsOf(images), decode)
    ensures result.status == Error <==> exists j :: 0 <= j < |answers| && !Accepted(answers[j])
    ensures ItemsOf(images) == [] ==> result == UploadResult(Success, NothingToUpload, []) && posted == []
  {
    if images.None? || |images.value| == 0 {
      return UploadResult(Success, NothingToUpload, []), [];
    }
    var items := images.value;
    var responses: seq<string> := [];
    var uploadErrors: seq<string> := [];
    posted := [];
    for i := 0 to |items|
      invariant posted == Forms(items[..i], decode)
      invariant responses == Successes(items[..i], answers[..i])
      invariant uploadErrors == Failures(items[..i], answers[..i])
    {
      assert items[..i + 1][..i] == items[..i];
      assert answers[..i + 1][..i] == answers[..i];
      var name := items[i].name;
      var blob := decode(items[i].image);
      var form := UploadForm(name, blob, "image/png", "true");
      posted := posted + [form];
      var response := answers[i];
      if response.statusCode != 200 {
        uploadErrors := uploadErrors + [ErrorText(name, response.text)];
      } else {
        responses := responses + [SuccessText(name)];
      }
    }
    assert items[..|items|] == items;
    assert answers[..|answers|] == answers;
    AggregateStatus(images, answers);
    if uploadErrors != [] {
      return UploadResult(Error, SomeFailed, uploadErrors), posted;
    }
    return UploadResult(Success, AllUploaded, responses), posted;
  }

  /** The round has no error message exactly when every answer is 200. */
  lemma {:induction false} FailuresEmptyIff(items: seq<UploadItem>, answers: seq<Answer>)
    requires |items| == |answers|
    ensures Failures(items, answers) == [] <==> forall j :: 0 <= j < |answers| ==> Accepted(answers[j])
  {
    if |items| > 0 {
      var n := |items| - 1;
      FailuresEmptyIff(items[..n], answers[..n]);
      assert forall j :: 0 <= j < n ==> answers[..n][j] == answers[j];
    }
  }

  /** An upload round fails exactly when some answer is not 200; an empty round never fails. */
  lemma AggregateStatus(images: Option<seq<UploadItem>>, answers: seq<Answer>)
    requires |answers| == |ItemsOf(images)|
    ensures Aggregate(images, answers).status == Error <==>
            exists j :: 0 <= j < |answers| && !Accepted(answers[j])
  {
    FailuresEmptyIff(ItemsOf(images), answers);
  }

  /**
   * The error details are exactly the messages of the rejected items, one
   * per rejected item, in input order.
   */
  lemma {:induction false} FailuresAreRejectedItems(items: seq<UploadItem>, answers: seq<Answer>)
    requires |items| == |answers|
    ensures |Failures(items, answers)| == |FailingIndices(answers)|
    ensures forall k :: 0 <= k < |FailingIndices(answers)| ==>
      var j := FailingIndices(answers)[k];
      Failures(items, answers)[k] == ErrorText(items[j].name, answers[j].text)
  {
    if |items| > 0 {
      var n := |items| - 1;
      FailuresAreRejectedItems(items[..n], answers[..n]);
      var ix := FailingIndices(answers[..n]);
      forall k | 0 <= k < |ix| ensures ix[k] < n { }
    }
  }

  /** When every answer is 200 the details hold one success message per item, in order. */
  lemma {:induction false} SuccessesWhenAllAccepted(items: seq<UploadItem>, answers: seq<Answer>)
    requires |items| == |answers|
    requires forall j :: 0 <= j < |answers| ==> Accepted(answers[j])
    ensures |Successes(items, answers)| == |items|
    ensures forall k :: 0 <= k < |items| ==> Successes(items, answers)[k] == SuccessText(items[k].name)
  {
    if |items| > 0 {
      var n := |items| - 1;
      SuccessesWhenAllAccepted(items[..n], answers[..n]);
    }
  }

  /**
   * A round with a rejection reports exactly the rejected items; a round
   * without one reports every item as uploaded.
   */
  lemma UploadOutcome(images: Option<seq<UploadItem>>, answers: seq<Answer>)
    requires |answers| == |ItemsOf(images)| > 0
    ensures var r := Aggregate(images, answers);
      (r.status == Error ==> r.message == SomeFailed && |r.details| == |FailingIndices(answers)|) &&
      (r.status == Success ==> r.message == AllUploaded && |r.details| == |answers|)
    ensures var r := Aggregate(images, answers);
      r.status == Error ==>
        forall k :: 0 <= k < |FailingIndices(answers)| ==>
          var j := FailingIndices(answers)[k];
          r.details[k] == ErrorText(ItemsOf(images)[j].name, answers[j].text)
    ensures var r := Aggregate(images, answers);
      r.status == Success ==>
        forall k :: 0 <= k < |answers| ==> r.details[k] == SuccessText(ItemsOf(images)[k].name)
  {
    var items := ItemsOf(images);
    FailuresEmptyIff(items, answers);
    FailuresAreRejectedItems(items, answers);
    if Failures(items, answers) == [] {
      SuccessesWhenAllAccepted(items, answers);
    }
  }
}
