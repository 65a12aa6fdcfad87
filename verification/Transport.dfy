/** The gateway as backup and archive see it: uploads of segments and manifests, each of which may fail. */
module Transport {
  import opened Common
  import opened ManifestChain

  /** An upload is stored and acknowledged, or not stored, or stored while the reply gets lost. */
  datatype Reply = Acknowledged | Rejected | ReplyLost

  datatype Remote<F> = Remote(segments: map<Bytes, F>, manifests: seq<Manifest>)

  function PutSegment<F>(remote: Remote<F>, reply: Reply, id: Bytes, frame: F): Remote<F> {
    if reply == Rejected then remote else remote.(segments := remote.segments[id := frame])
  }

  function PutManifest<F>(remote: Remote<F>, reply: Reply, m: Manifest): Remote<F> {
    if reply == Rejected then remote else remote.(manifests := remote.manifests + [m])
  }

  class Gateway<F> {
    var segments: map<Bytes, F>
    var manifests: seq<Manifest>

    function State(): Remote<F>
      reads this
    {
      Remote(segments, manifests)
    }

    method UploadSegment(reply: Reply, id: Bytes, frame: F) returns (ok: bool)
      modifies this
      ensures State() == PutSegment(old(State()), reply, id, frame)
      ensures ok <==> reply == Acknowledged
    {
      if reply != Rejected {
        segments := segments[id := frame];
      }
      ok := reply == Acknowledged;
    }

    method UploadManifest(reply: Reply, m: Manifest) returns (ok: bool)
      modifies this
      ensures State() == PutManifest(old(State()), reply, m)
      ensures ok <==> reply == Acknowledged
    {
      if reply != Rejected {
        manifests := manifests + [m];
      }
      ok := reply == Acknowledged;
    }
  }
}
