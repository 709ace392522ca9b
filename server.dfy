/** The inference server: it accepts one connection at a time, reads a
    length-prefixed frame, has the image classified and writes back a bare
    (unframed) text reply.

    The classifier (image decoding, resizing, normalisation and the neural
    network) is a parameter `classify` from the received payload to either the
    score vector it produces or the diagnostic of the exception it raises. */
module Server {
  import opened Sockets

  /** Size of the big-endian length header. */
  const HeaderSize: nat := 4
  /** Largest request made by one body read. */
  const ChunkSize: nat := 4096

  /** The 20 labels of the classifier, indexed by output position. */
  const VocClasses: seq<string> := [
    "aeroplane", "bicycle", "bird", "boat", "bottle", "bus", "car", "cat",
    "chair", "cow", "diningtable", "dog", "horse", "motorbike", "person",
    "pottedplant", "sheep", "sofa", "train", "tvmonitor"
  ]

  /** Diagnostics (the `repr` of the exception) of the failures the server
      itself raises; failures inside the classifier carry their own. */
  const UnpackErrorRepr := "error('unpack requires a buffer of 4 bytes')"
  const EmptyArgMaxRepr := "ValueError('attempt to get argmax of an empty sequence')"
  const IndexErrorRepr := "IndexError('list index out of range')"

  /** `struct.unpack("!I", raw)`: an unsigned 32-bit big-endian number, and
      an exception for any buffer that is not exactly four bytes long. */
  function UnpackBE32(raw: seq<byte>): (r: Option<nat>)
    ensures r.Some? <==> |raw| == HeaderSize
    ensures r.Some? ==> r.value < 0x1_0000_0000
  {
    if |raw| != HeaderSize then None
    else Some(raw[0] as nat * 0x100_0000 + raw[1] as nat * 0x1_0000
              + raw[2] as nat * 0x100 + raw[3] as nat)
  }

  /** `i` is the position `numpy.argmax` reports: the first one holding the maximum. */
  ghost predicate IsFirstMax(s: seq<int>, i: int) {
    && 0 <= i < |s|
    && (forall j :: 0 <= j < |s| ==> s[j] <= s[i])
    && (forall j :: 0 <= j < i ==> s[j] < s[i])
  }

  function ArgMax(s: seq<int>): (i: nat)
    requires s != []
    ensures IsFirstMax(s, i)
  {
    if |s| == 1 then 0
    else
      var k := ArgMax(s[..|s| - 1]);
      if s[|s| - 1] > s[k] then |s| - 1 else k
  }

  /** What the classifier produced for one payload. */
  datatype Inference = Scores(values: seq<int>) | Raised(diag: string)

  /** What the server does with one connection: exactly one of these. */
  datatype Reply =
    | Silent               // nothing is written back
    | ShortBody            // the declared length was not delivered
    | Label(name: string)  // the predicted class
    | Error(diag: string)  // an exception was caught

  /** The bytes written back for a reply. */
  function Wire(r: Reply): string {
    match r
    case Silent => ""
    case ShortBody => "-1"
    case Label(name) => name
    case Error(diag) => "ERROR:" + diag
  }

  /** `infer`: the label at the first maximal score, or the failure raised
      on the way (by the classifier, by `argmax` on no scores, or by the
      label lookup past the 20 classes). */
  function InferLabel(outcome: Inference): (r: Reply)
    ensures r.Label? || r.Error?
    ensures r.Label? ==> r.name in VocClasses
    ensures outcome.Raised? ==> r == Error(outcome.diag)
    ensures outcome.Scores? && outcome.values == [] ==> r == Error(EmptyArgMaxRepr)
    ensures outcome.Scores? ==>
      forall i :: IsFirstMax(outcome.values, i) ==>
        r == if i < |VocClasses| then Label(VocClasses[i]) else Error(IndexErrorRepr)
  {
    match outcome
    case Raised(diag) => Error(diag)
    case Scores(values) =>
      if values == [] then Error(EmptyArgMaxRepr)
      else
        var i := ArgMax(values);
        assert forall j :: IsFirstMax(values, j) ==> j == i;
        if i < |VocClasses| then Label(VocClasses[i]) else Error(IndexErrorRepr)
  }

  /** The outcome of reading one request frame. */
  datatype Received =
    | Closed                                    // the header read returned nothing
    | BadHeader(raw: seq<byte>)                 // the header read returned 1 to 3 bytes
    | Truncated(expected: nat, received: nat)   // the peer closed inside the body
    | Payload(data: seq<byte>)                  // the complete body

  /** The header read (one `recv(4)`) followed by the body reassembly. */
  function ReadFrame(segments: seq<seq<byte>>): (r: Received)
    ensures r.Closed? <==> Delivered(segments) == []
    ensures r.BadHeader? <==> 1 <= |FirstRead(segments, HeaderSize)| < HeaderSize
    ensures r.Truncated? ==>
      && |Delivered(segments)| == HeaderSize + r.received
      && r.received < r.expected
      && UnpackBE32(Delivered(segments)[..HeaderSize]) == Some(r.expected)
    ensures r.Payload? ==>
      && HeaderSize + |r.data| <= |Delivered(segments)|
      && UnpackBE32(Delivered(segments)[..HeaderSize]) == Some(|r.data|)
      && Delivered(segments)[HeaderSize..HeaderSize + |r.data|] == r.data
  {
    var raw := FirstRead(segments, HeaderSize);
    if raw == [] then Closed
    else match UnpackBE32(raw)
      case None => BadHeader(raw)
      case Some(msglen) =>
        var body := Delivered(segments)[|raw|..];
        var data := body[..Min(msglen, |body|)];
        if |data| != msglen then Truncated(msglen, |data|) else Payload(data)
  }

  /** The whole per-connection decision. */
  function Respond(segments: seq<seq<byte>>, classify: seq<byte> -> Inference): (r: Reply)
    ensures r.Silent? <==> Delivered(segments) == []
    ensures r.ShortBody? <==> ReadFrame(segments).Truncated?
    ensures 1 <= |FirstRead(segments, HeaderSize)| < HeaderSize ==> r == Error(UnpackErrorRepr)
    ensures ReadFrame(segments).Payload? ==> r == InferLabel(classify(ReadFrame(segments).data))
  {
    match ReadFrame(segments)
    case Closed => Silent
    case BadHeader(_) => Error(UnpackErrorRepr)
    case Truncated(_, _) => ShortBody
    case Payload(data) => InferLabel(classify(data))
  }

  /** One accepted connection: the segments the client's bytes arrive in,
      and the bytes written back so far. */
  class Connection {
    var incoming: seq<seq<byte>>
    var outgoing: string

    constructor (segments: seq<seq<byte>>)
      ensures incoming == segments && outgoing == []
    {
      incoming := segments;
      outgoing := [];
    }

    /** `conn.recv(bufsize)`. */
    method Recv(bufsize: nat) returns (packet: seq<byte>)
      modifies this`incoming
      ensures packet == FirstRead(old(incoming), bufsize)
      ensures incoming == AfterRead(old(incoming), bufsize)
    {
      packet := FirstRead(incoming, bufsize);
      incoming := AfterRead(incoming, bufsize);
    }

    /** `conn.sendall(text)`. */
    method SendAll(text: string)
      modifies this`outgoing
      ensures outgoing == old(outgoing) + text
    {
      outgoing := outgoing + text;
    }

    /** Body reassembly: read `min(4096, remaining)` bytes at a time until
        `msglen` bytes are in or a read comes back empty. The result is the
        first `msglen` bytes of what the peer delivers, or all of it if the
        peer closes sooner; the bytes after them stay queued. */
    method ReceiveBody(msglen: nat) returns (data: seq<byte>)
      modifies this`incoming
      ensures |data| <= msglen
      ensures data == Delivered(old(incoming))[..Min(msglen, |Delivered(old(incoming))|)]
      ensures Delivered(old(incoming)) == data + Delivered(incoming)
    {
      data := [];
      while |data| < msglen
        invariant |data| <= msglen
        invariant Delivered(old(incoming)) == data + Delivered(incoming)
        decreases msglen - |data|
      {
        var request := Min(ChunkSize, msglen - |data|);
        assert 1 <= request <= ChunkSize && |data| + request <= msglen;
        var packet := Recv(request);
        if packet == [] {
          break;
        }
        data := data + packet;
      }
    }

    /** Serve this connection: read the frame, classify a complete body,
        and write back the reply; every failure becomes an "ERROR:" reply. */
    method Handle(classify: seq<byte> -> Inference) returns (reply: Reply)
      modifies this
      ensures reply == Respond(old(incoming), classify)
      ensures outgoing == old(outgoing) + Wire(reply)
    {
      var raw := Recv(HeaderSize);
      if raw == [] {
        return Silent;
      }
      var header := UnpackBE32(raw);
      if header.None? {
        reply := Error(UnpackErrorRepr);
      } else {
        var msglen := header.value;
        var data := ReceiveBody(msglen);
        if |data| != msglen {
          reply := ShortBody;
        } else {
          reply := InferLabel(classify(data));
        }
      }
      SendAll(Wire(reply));
    }
  }

  /** The accept loop over the connections accepted so far: each one is
      served in turn, whatever happened to the ones before it. */
  method Serve(conns: seq<Connection>, classify: seq<byte> -> Inference) returns (replies: seq<Reply>)
    requires forall i, j :: 0 <= i < j < |conns| ==> conns[i] != conns[j]
    modifies set c | c in conns
    ensures |replies| == |conns|
    ensures forall k :: 0 <= k < |conns| ==>
      && replies[k] == Respond(old(conns[k].incoming), classify)
      && conns[k].outgoing == old(conns[k].outgoing) + Wire(replies[k])
  {
    replies := [];
    for i := 0 to |conns|
      invariant |replies| == i
      invariant forall k :: 0 <= k < i ==>
        && replies[k] == Respond(old(conns[k].incoming), classify)
        && conns[k].outgoing == old(conns[k].outgoing) + Wire(replies[k])
      invariant forall k :: i <= k < |conns| ==>
        conns[k].incoming == old(conns[k].incoming) && conns[k].outgoing == old(conns[k].outgoing)
    {
      var reply := conns[i].Handle(classify);
      replies := replies + [reply];
    }
  }
}
