/**
 * The result collector: once the job has finished, the bridge walks the
 * `outputs` manifest that the backend's history holds for the job, keeps the
 * nodes the caller asked for, and downloads every artifact those nodes name.
 * The dictionary that parsing the history's JSON builds keeps its keys in
 * insertion order and never repeats one, so the manifest and the result are
 * sequences of (node id, value) pairs, and storing a node's list in the
 * result dictionary appends a pair.
 * Downloading is the uninterpreted function `fetch` of an artifact reference.
 */
module Collector {
  import opened Wrappers
  import opened Backend

  /** One node's entry in the manifest; a kind the node did not produce is None. */
  datatype NodeOutput = NodeOutput(images: Option<seq<ArtifactRef>>, gifs: Option<seq<ArtifactRef>>)

  type Manifest = seq<(NodeId, NodeOutput)>

  /** The collected result: per kept node, its downloaded artifacts. */
  type Outputs = seq<(NodeId, seq<Blob>)>

  /** The references of one kind, or none when the key is absent. */
  function Present(kind: Option<seq<ArtifactRef>>): seq<ArtifactRef> {
    if kind.Some? then kind.value else []
  }

  /** Every reference of a node: its still images, then its animations. */
  function NodeRefs(o: NodeOutput): seq<ArtifactRef> {
    Present(o.images) + Present(o.gifs)
  }

  /** A node is kept when no output node was requested, or it is the requested one. */
  predicate Selected(id: NodeId, filter: Option<NodeId>) {
    filter.None? || id == filter.value
  }

  function Keys<V>(s: seq<(NodeId, V)>): (ks: seq<NodeId>)
    ensures |ks| == |s| && forall k :: 0 <= k < |s| ==> ks[k] == s[k].0
  {
    if |s| == 0 then [] else Keys(s[..|s| - 1]) + [s[|s| - 1].0]
  }

  /** No node id occurs twice, as in any parsed dictionary. */
  predicate KeysDistinct<V>(s: seq<(NodeId, V)>) {
    forall i, j :: 0 <= i < j < |s| ==> s[i].0 != s[j].0
  }

  /** Downloads of the given references, one per reference, in order. */
  function FetchAll(refs: seq<ArtifactRef>, fetch: ArtifactRef -> Blob): (blobs: seq<Blob>)
    ensures |blobs| == |refs|
    ensures forall k :: 0 <= k < |refs| ==> blobs[k] == fetch(refs[k])
  {
    if |refs| == 0 then []
    else FetchAll(refs[..|refs| - 1], fetch) + [fetch(refs[|refs| - 1])]
  }

  /** The list the collector builds for one node: the images' downloads, then the animations'. */
  function NodeArtifacts(o: NodeOutput, fetch: ArtifactRef -> Blob): seq<Blob> {
    FetchAll(Present(o.images), fetch) + FetchAll(Present(o.gifs), fetch)
  }

  /** The collected result, defined node by node over the manifest. */
  function Collect(m: Manifest, filter: Option<NodeId>, fetch: ArtifactRef -> Blob): Outputs {
    if |m| == 0 then []
    else
      var (id, o) := m[|m| - 1];
      Collect(m[..|m| - 1], filter, fetch) +
      (if Selected(id, filter) then [(id, NodeArtifacts(o, fetch))] else [])
  }

  /** Every reference the collector downloads, in download order. */
  function Requested(m: Manifest, filter: Option<NodeId>): seq<ArtifactRef> {
    if |m| == 0 then []
    else
      var (id, o) := m[|m| - 1];
      Requested(m[..|m| - 1], filter) + (if Selected(id, filter) then NodeRefs(o) else [])
  }

  /** All artifacts of a result, node after node. */
  function Artifacts(out: Outputs): seq<Blob> {
    if |out| == 0 then [] else Artifacts(out[..|out| - 1]) + out[|out| - 1].1
  }

  /** Downloads the given references one after the other, appending each result. */
  method FetchEach(refs: seq<ArtifactRef>, fetch: ArtifactRef -> Blob) returns (blobs: seq<Blob>)
    ensures blobs == FetchAll(refs, fetch)
  {
    blobs := [];
    for j := 0 to |refs|
      invariant blobs == FetchAll(refs[..j], fetch)
    {
      assert refs[..j + 1][..j] == refs[..j];
      blobs := blobs + [fetch(refs[j])];
    }
    assert refs[..|refs|] == refs;
  }

  /** One node's list: the downloads of its images, then those of its animations. */
  method FetchNode(o: NodeOutput, fetch: ArtifactRef -> Blob) returns (imagesOutput: seq<Blob>)
    ensures imagesOutput == NodeArtifacts(o, fetch)
  {
    imagesOutput := [];
    if o.images.Some? {
      var stills := FetchEach(o.images.value, fetch);
      imagesOutput := imagesOutput + stills;
    }
    if o.gifs.Some? {
      var animations := FetchEach(o.gifs.value, fetch);
      imagesOutput := imagesOutput + animations;
    }
  }

  /**
   * The manifest walk: skip the nodes the filter rejects; for each other node
   * download its images, then its animations, and store the list under the
   * node id. Also returns the references it downloaded, in order.
   */
  method CollectOutputs(m: Manifest, filter: Option<NodeId>, fetch: ArtifactRef -> Blob)
    returns (out: Outputs, requested: seq<ArtifactRef>)
    ensures out == Collect(m, filter, fetch)
    ensures requested == Requested(m, filter)
  {
    out, requested := [], [];
    for i := 0 to |m|
      invariant out == Collect(m[..i], filter, fetch)
      invariant requested == Requested(m[..i], filter)
    {
      CollectStep(m, i, filter, fetch);
      var nodeId, nodeOutput := m[i].0, m[i].1;
      if filter.Some? && nodeId != filter.value {
        continue;
      }
      var imagesOutput := FetchNode(nodeOutput, fetch);
      // FetchNode downloads exactly these references, images then gifs;
      // ArtifactsOfCollect ties the download trace to the collected lists.
      requested := requested + NodeRefs(nodeOutput);
      out := out + [(nodeId, imagesOutput)];
    }
    assert m[..|m|] == m;
  }

  /** One more manifest node extends the result and the requests by that node's share. */
  lemma CollectStep(m: Manifest, i: nat, filter: Option<NodeId>, fetch: ArtifactRef -> Blob)
    requires i < |m|
    ensures Collect(m[..i + 1], filter, fetch) ==
            Collect(m[..i], filter, fetch) +
            (if Selected(m[i].0, filter) then [(m[i].0, NodeArtifacts(m[i].1, fetch))] else [])
    ensures Requested(m[..i + 1], filter) ==
            Requested(m[..i], filter) + (if Selected(m[i].0, filter) then NodeRefs(m[i].1) else [])
  {
    assert m[..i + 1][..i] == m[..i];
    assert m[..i + 1][i] == m[i];
  }

  /** Downloading two runs of references downloads each run in turn. */
  lemma {:induction false} FetchAllAppend(a: seq<ArtifactRef>, b: seq<ArtifactRef>, fetch: ArtifactRef -> Blob)
    ensures FetchAll(a + b, fetch) == FetchAll(a, fetch) + FetchAll(b, fetch)
  {
    var l, r := FetchAll(a + b, fetch), FetchAll(a, fetch) + FetchAll(b, fetch);
    assert |l| == |r|;
    forall k | 0 <= k < |l| ensures l[k] == r[k] {
      if k < |a| {
        assert (a + b)[k] == a[k];
      } else {
        assert (a + b)[k] == b[k - |a|];
      }
    }
  }

  /**
   * Without a filter every manifest node appears, in manifest order, with
   * its images' downloads followed by its animations'; a node with neither
   * key maps to the empty list.
   */
  lemma {:induction false} CollectUnfiltered(m: Manifest, fetch: ArtifactRef -> Blob)
    ensures |Collect(m, None, fetch)| == |m|
    ensures forall k :: 0 <= k < |m| ==>
      Collect(m, None, fetch)[k] == (m[k].0, FetchAll(Present(m[k].1.images), fetch) + FetchAll(Present(m[k].1.gifs), fetch))
    ensures forall k :: 0 <= k < |m| && m[k].1.images.None? && m[k].1.gifs.None? ==>
      Collect(m, None, fetch)[k].1 == []
  {
    if |m| > 0 {
      var p := m[..|m| - 1];
      CollectUnfiltered(p, fetch);
      forall k | 0 <= k < |p| ensures m[k] == p[k] { }
    }
  }

  /** With a filter, every node of the result is the requested node. */
  lemma {:induction false} CollectFilteredKeys(m: Manifest, id: NodeId, fetch: ArtifactRef -> Blob)
    ensures forall k :: 0 <= k < |Collect(m, Some(id), fetch)| ==> Collect(m, Some(id), fetch)[k].0 == id
  {
    if |m| > 0 {
      CollectFilteredKeys(m[..|m| - 1], id, fetch);
    }
  }

  /**
   * With a filter, the result is exactly the requested node with its
   * artifacts when the manifest has it, and empty when it does not.
   */
  lemma {:induction false} CollectFiltered(m: Manifest, id: NodeId, fetch: ArtifactRef -> Blob)
    requires KeysDistinct(m)
    ensures forall p :: 0 <= p < |m| && m[p].0 == id ==>
      Collect(m, Some(id), fetch) == [(id, NodeArtifacts(m[p].1, fetch))]
    ensures (forall p :: 0 <= p < |m| ==> m[p].0 != id) ==> Collect(m, Some(id), fetch) == []
  {
    if |m| > 0 {
      var q := m[..|m| - 1];
      assert KeysDistinct(q);
      CollectFiltered(q, id, fetch);
      forall p | 0 <= p < |q| ensures m[p] == q[p] { }
    }
  }

  /** Every key of the result is a key of the manifest. */
  lemma {:induction false} CollectKeysFromManifest(m: Manifest, filter: Option<NodeId>, fetch: ArtifactRef -> Blob)
    ensures forall k :: 0 <= k < |Collect(m, filter, fetch)| ==> Collect(m, filter, fetch)[k].0 in Keys(m)
  {
    if |m| > 0 {
      var q := m[..|m| - 1];
      CollectKeysFromManifest(q, filter, fetch);
      forall k | 0 <= k < |Collect(q, filter, fetch)| ensures Collect(q, filter, fetch)[k].0 in Keys(m) {
        var key := Collect(q, filter, fetch)[k].0;
        var p :| 0 <= p < |q| && Keys(q)[p] == key;
        assert Keys(m)[p] == key;
      }
      assert Keys(m)[|m| - 1] == m[|m| - 1].0;
    }
  }

  /** The result is again a valid dictionary: no node id occurs twice. */
  lemma {:induction false} CollectKeysDistinct(m: Manifest, filter: Option<NodeId>, fetch: ArtifactRef -> Blob)
    requires KeysDistinct(m)
    ensures KeysDistinct(Collect(m, filter, fetch))
  {
    if |m| > 0 {
      var q := m[..|m| - 1];
      assert KeysDistinct(q);
      CollectKeysDistinct(q, filter, fetch);
      CollectKeysFromManifest(q, filter, fetch);
      var last := m[|m| - 1].0;
      assert last !in Keys(q) by {
        forall p | 0 <= p < |q| ensures Keys(q)[p] != last {
          assert q[p] == m[p];
        }
      }
    }
  }

  /**
   * The artifacts of the result, node after node, are exactly the downloads
   * of the requested references, in request order.
   */
  lemma {:induction false} ArtifactsOfCollect(m: Manifest, filter: Option<NodeId>, fetch: ArtifactRef -> Blob)
    ensures Artifacts(Collect(m, filter, fetch)) == FetchAll(Requested(m, filter), fetch)
  {
    if |m| > 0 {
      var q := m[..|m| - 1];
      var (id, o) := m[|m| - 1];
      ArtifactsOfCollect(q, filter, fetch);
      var c := Collect(q, filter, fetch);
      if Selected(id, filter) {
        var c' := c + [(id, NodeArtifacts(o, fetch))];
        assert c'[..|c'| - 1] == c;
        FetchAllAppend(Present(o.images), Present(o.gifs), fetch);
        FetchAllAppend(Requested(q, filter), NodeRefs(o), fetch);
      } else {
        assert c + [] == c;
        assert Requested(q, filter) + [] == Requested(q, filter);
      }
    }
  }
}
