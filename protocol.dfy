/** The wire protocol end to end: the client's frame encoder against the
    server's frame reader, and the server's replies against the client's
    announcements. */
module Protocol {
  import opened Sockets
  import Server
  import Client

  /** Decoding an encoded length gives the length back. */
  lemma HeaderRoundTrip(n: nat)
    requires n < 0x1_0000_0000
    ensures Server.UnpackBE32(Client.PackBE32(n)) == Some(n)
  {
  }

  /** Encoding a decoded header gives the header back: every 4-byte header
      denotes exactly one length. */
  lemma HeaderInverse(h: seq<byte>)
    requires |h| == Server.HeaderSize
    ensures Server.UnpackBE32(h).Some? && Client.PackBE32(Server.UnpackBE32(h).value) == h
  {
    var v := Server.UnpackBE32(h).value;
    var b0, b1, b2, b3 := h[0] as nat, h[1] as nat, h[2] as nat, h[3] as nat;
    var low := b1 * 0x1_0000 + b2 * 0x100 + b3;
    assert v == b0 * 0x100_0000 + low && low < 0x100_0000;
    assert v / 0x100_0000 == b0;
    assert v / 0x1_0000 == b0 * 0x100 + b1;
    assert v / 0x100 == b0 * 0x1_0000 + b1 * 0x100 + b2;
    var p := Client.PackBE32(v);
    assert p[0] == h[0] && p[1] == h[1] && p[2] == h[2] && p[3] == h[3];
  }

  /** Whatever segments the frame arrives in, as long as the header comes
      in the first read, the server reassembles exactly the payload sent. */
  lemma FrameRoundTrip(payload: seq<byte>, segments: seq<seq<byte>>)
    requires Client.EncodeFrame(payload).Some?
    requires Delivered(segments) == Client.EncodeFrame(payload).value
    requires |FirstRead(segments, Server.HeaderSize)| == Server.HeaderSize
    ensures Server.ReadFrame(segments) == Server.Payload(payload)
  {
    var frame := Client.EncodeFrame(payload).value;
    var raw := FirstRead(segments, Server.HeaderSize);
    assert raw == frame[..4] == Client.PackBE32(|payload|);
    HeaderRoundTrip(|payload|);
    assert Delivered(segments)[|raw|..] == payload;
  }

  /** ... and it classifies exactly that payload. */
  lemma ServerClassifiesPayload(payload: seq<byte>, segments: seq<seq<byte>>, classify: seq<byte> -> Server.Inference)
    requires Client.EncodeFrame(payload).Some?
    requires Delivered(segments) == Client.EncodeFrame(payload).value
    requires |FirstRead(segments, Server.HeaderSize)| == Server.HeaderSize
    ensures Server.Respond(segments, classify) == Server.InferLabel(classify(payload))
  {
    FrameRoundTrip(payload, segments);
  }

  /** An empty payload is framed as four zero bytes and reaches the
      classifier as an empty payload. */
  lemma EmptyPayload(segments: seq<seq<byte>>, classify: seq<byte> -> Server.Inference)
    requires Delivered(segments) == Client.EncodeFrame([]).value
    requires |FirstRead(segments, Server.HeaderSize)| == Server.HeaderSize
    ensures Delivered(segments) == [0, 0, 0, 0]
    ensures Server.Respond(segments, classify) == Server.InferLabel(classify([]))
  {
  }

  /** The server reads the header with a single `recv(4)`: when the first
      segment holds only part of it, the frame is refused with an error
      reply, though the client sent a well-formed frame. */
  lemma SplitHeaderRefused(payload: seq<byte>, segments: seq<seq<byte>>, classify: seq<byte> -> Server.Inference)
    requires Client.EncodeFrame(payload).Some?
    requires Delivered(segments) == Client.EncodeFrame(payload).value
    requires |FirstRead(segments, Server.HeaderSize)| < Server.HeaderSize
    ensures Server.Respond(segments, classify) == Server.Error(Server.UnpackErrorRepr)
  {
  }

  /** A header declaring `n` bytes followed by fewer than `n` before the
      close is reported with the exact counts, and answered "-1" without
      consulting the classifier. */
  lemma TruncatedBody(n: nat, body: seq<byte>, segments: seq<seq<byte>>, classify: seq<byte> -> Server.Inference)
    requires n < 0x1_0000_0000 && |body| < n
    requires Delivered(segments) == Client.PackBE32(n) + body
    requires |FirstRead(segments, Server.HeaderSize)| == Server.HeaderSize
    ensures Server.ReadFrame(segments) == Server.Truncated(n, |body|)
    ensures Server.Respond(segments, classify) == Server.ShortBody
  {
    HeaderRoundTrip(n);
    assert Delivered(segments)[..4] == Client.PackBE32(n);
    assert Delivered(segments)[4..] == body;
  }

  /** No class name begins like an error reply or the short-body reply. */
  lemma LabelShape(name: string)
    requires name in Server.VocClasses
    ensures 3 <= |name| && name[0] != 'E' && name[0] != '-' && name[0] != Client.Fallback[0]
  {
  }

  /** The client can tell every reply apart by its text: two replies the
      server can send that read the same are the same reply. */
  lemma WireDistinct(r1: Server.Reply, r2: Server.Reply)
    requires !r1.Silent? && !r2.Silent?
    requires r1.Label? ==> r1.name in Server.VocClasses
    requires r2.Label? ==> r2.name in Server.VocClasses
    requires Server.Wire(r1) == Server.Wire(r2)
    ensures r1 == r2
  {
    var w := Server.Wire(r1);
    if r1.Label? { LabelShape(r1.name); }
    if r2.Label? { LabelShape(r2.name); }
    if r1.Error? && r2.Error? {
      assert r1.diag == w[6..] == r2.diag;
    }
  }

  /** How the client announces each reply: a closed connection is "no
      detection"; every other reply, "-1" and "ERROR:..." included, is
      announced as a detected object. */
  lemma AnnouncedReply(r: Server.Reply)
    requires r.Label? ==> r.name in Server.VocClasses
    ensures r.Silent? ==> Client.Announce(Server.Wire(r)) == Client.NoDetectionSpeech
    ensures !r.Silent? ==> Client.Announce(Server.Wire(r)) == Client.DetectedPrefix + Server.Wire(r)
  {
  }

  /** One successful round end to end: the client frames the serialized
      capture, the server classifies exactly that payload, and whatever
      segments its reply comes back in, the client announces as a detected
      object the first read of it: a nonempty prefix of at most 1024
      characters of the reply text. */
  lemma RoundEndToEnd(i: nat, image: seq<byte>, width: int, height: int, dumps: Client.Serializer,
                      segments: seq<seq<byte>>, classify: seq<byte> -> Server.Inference,
                      back: seq<seq<char>>)
    requires Client.EncodeFrame(dumps(image, width, height)).Some?
    requires Delivered(segments) == Client.EncodeFrame(dumps(image, width, height)).value
    requires |FirstRead(segments, Server.HeaderSize)| == Server.HeaderSize
    requires Delivered(back) == Server.Wire(Server.Respond(segments, classify))
    ensures Server.Respond(segments, classify) == Server.InferLabel(classify(dumps(image, width, height)))
    ensures 1 <= |FirstRead(back, Client.RecvSize)| <= Client.RecvSize
    ensures FirstRead(back, Client.RecvSize)
      == Server.Wire(Server.Respond(segments, classify))[..|FirstRead(back, Client.RecvSize)|]
    ensures Client.RoundSpeech(i, Client.Round(Client.Captured(image, width, height), Client.Answered(back)), dumps)[2]
      == Client.DetectedPrefix + FirstRead(back, Client.RecvSize)
  {
    var payload := dumps(image, width, height);
    ServerClassifiesPayload(payload, segments, classify);
    var reply := Server.Respond(segments, classify);
    var text := Server.Wire(reply);
    var p := FirstRead(back, Client.RecvSize);
    assert p != [] && p[0] == text[0];
    if reply.Label? {
      LabelShape(reply.name);
    } else {
      assert text[0] == 'E';
    }
    assert !Client.NoDetection(p);
    assert Client.SendToServer(payload, Client.Answered(back)) == p;
  }
}
