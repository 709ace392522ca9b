# Robot object recognition: wire protocol and decisions

This project models the two scripts of a robot object-recognition system.

- The capture client runs on a NAO robot (`nao/Nao.py`). Over five rounds it asks for an object and takes a picture. It sends the picture to the server in a length-prefixed frame and speaks the label that comes back.
- The inference server (`servidor/servidor.py`) serves one connection at a time. It reads the frame and reassembles the body from partial reads. It runs the classifier and writes back a bare text reply: the label, `-1` for a short body, or `ERROR:` followed by the exception's `repr`.

The model has four modules.

- `Sockets` (`sockets.dfy`) models a byte stream as the list of segments that successive `recv` calls find waiting. `recv(n)` takes at most `n` bytes from the front segment and leaves the rest queued. An empty segment, or the end of the list, is the peer's close.
- `Server` (`server.dfy`):
  - the header decode, `argmax` and the label lookup;
  - the frame reader and the per-connection decision, as pure functions;
  - the connection as a class (`Connection`) whose methods mirror the code: `Recv`, `SendAll`, the reassembly loop `ReceiveBody`, `Handle`;
  - the accept loop `Serve`.
- `Client` (`client.dfy`):
  - the frame encoder, `send_to_server` and the interpretation of results, as pure functions;
  - the announcements of a whole run, as a function (`Script`);
  - the speech device as a class, and `main` as a loop (`RunSession`, with the round body in `PlayRound`) proved to say exactly `Script`.
- `Protocol` (`protocol.dfy`) holds the end-to-end lemmas. They join the client's encoder to the server's reader, and the server's replies to the client's announcements.

The classifier is a parameter `classify`. It maps the received payload to either a score vector or the diagnostic of the exception it raised. That covers image decoding, resizing, normalisation and the neural network. The serializer the client applies to the captured triple is also a parameter (`dumps`). The camera and the network are per-round inputs.

Behaviour of the code worth knowing:

- The header is read with one `recv(4)`, not with a loop until 4 bytes are in. If the first read brings 1 to 3 bytes, `struct.unpack` raises and the reply is `ERROR:...`. This happens even for a well-formed frame whose header was split (`Protocol.SplitHeaderRefused`). So the round-trip lemmas assume that the first read carries the whole header.
- A short header is not a separate error kind. It ends up as an `ERROR:` reply.
- The client announces `-1` and `ERROR:...` replies as detected objects. Only an empty result and `_` count as "no detection" (`Protocol.AnnouncedReply`).
- The client sends a serialized `(bytes, width, height)` triple. The server hands the whole payload to the classifier as image bytes. The model treats the payload as opaque bytes on both sides.

## Model

| member | source | states |
|---|---|---|
| `Sockets.FirstRead` | servidor/servidor.py:82 | one `recv(n)` returns a prefix of what the peer delivers, at most `n` bytes long, and empty exactly at the peer's close (or when asked for 0 bytes) |
| `Sockets.AfterRead` | servidor/servidor.py:93 | after a `recv` the peer's remaining stream is what it delivered minus the bytes just returned: nothing is lost or reordered |
| `Server.UnpackBE32` | servidor/servidor.py:87 | `struct.unpack("!I")` succeeds exactly on a 4-byte buffer, and its value is below 2^32 |
| `Server.ArgMax` | servidor/servidor.py:64 | `numpy.argmax` returns an index of the scores holding the maximum, and no earlier index holds it (the first maximum) |
| `Server.InferLabel` | servidor/servidor.py:60-65 | a classifier failure becomes an error with its diagnostic; no scores is argmax's ValueError; otherwise the label is one of the 20 classes, `VOC_CLASSES[i]` for the first maximal index `i`, or an IndexError when `i` is 20 or more; the result is always a label or an error |
| `Server.ReadFrame` | servidor/servidor.py:82-101 | nothing delivered means closed; a first read of 1 to 3 bytes means a bad header; a truncated body reports the declared length and exactly the bytes received after the header, fewer than declared; a payload is exactly the declared number of bytes that follow the 4-byte header |
| `Server.Respond` | servidor/servidor.py:80-116 | the server sends nothing exactly when the peer sent nothing; a first read of 1 to 3 bytes is answered with the `ERROR:` reply of the failed unpack; the reply is `-1` exactly when the body was truncated; a complete body is answered with the classification of exactly that body |
| `Server.Connection.constructor` | servidor/servidor.py:76-79 | an accepted connection starts with the peer's segments queued and nothing written back |
| `Server.Connection.Recv` | servidor/servidor.py:93 | `conn.recv(n)` returns the first read of the queued segments and leaves the rest queued |
| `Server.Connection.SendAll` | servidor/servidor.py:100 | `conn.sendall` appends the text to what was written back |
| `Server.Connection.ReceiveBody` | servidor/servidor.py:90-96 | reads of `min(4096, remaining)` bytes keep `data` at most `msglen` long; the loop ends with the first `msglen` delivered bytes, or with everything delivered when the peer closes sooner; what follows stays queued |
| `Server.Connection.Handle` | servidor/servidor.py:79-116 | serving one connection returns `Respond` of its segments and writes back exactly that reply's text |
| `Server.Serve` | servidor/servidor.py:75-116 | the accept loop serves every accepted connection in turn, each getting its own `Respond` reply whatever happened to the earlier ones |
| `Client.PackBE32` | nao/Nao.py:53 | `struct.pack("!I", n)` is exactly 4 bytes |
| `Client.EncodeFrame` | nao/Nao.py:52-58 | a frame exists exactly when the payload is shorter than 2^32 bytes; it is 4 header bytes followed by the payload itself |
| `Client.SendToServer` | nao/Nao.py:50-73 | the result is at most 1024 long; a length that cannot be packed or a failed exchange gives `_`; otherwise the result is a prefix of the server's reply, empty only when the server sent nothing |
| `Client.Announce` | nao/Nao.py:106-113 | the "no detection" sentence is said exactly for an empty result or `_`; any other result is said after "Detecte el siguiente objeto: " and can be read back from the announcement |
| `Client.RoundSpeech` | nao/Nao.py:94-113 | a round says its numbered prompt, then either "No pude capturar la imagen." (2 announcements) or "Analizando..." and the result's announcement (3 announcements) |
| `Client.Script` | nao/Nao.py:85-118 | a run starts with "Iniciando reconocimiento de objetos." and ends with "Proceso de deteccion terminado. Gracias." |
| `Client.Speaker.constructor` | nao/Nao.py:88 | the speech device starts with nothing said |
| `Client.Speaker.SafeSay` | nao/Nao.py:75-82 | `safe_say` hands the text to the device and always returns to its caller |
| `Client.PlayRound` | nao/Nao.py:94-115 | the loop body (with `continue` after a failed capture) says exactly that round's announcements |
| `Client.RunSession` | nao/Nao.py:85-118 | `main` says exactly `Script`: the greeting, rounds 0 to 4 in order, the farewell |
| `Client.SpeechLength` | nao/Nao.py:93-113 | `n` rounds say `2n` plus one per successful capture |
| `Client.ScriptLength` | nao/Nao.py:90-117 | a run says 12 plus the number of successful captures, so between 12 and 17 announcements |
| `Client.SpeechPrefix` | nao/Nao.py:93 | rounds are spoken in order: the first `k` rounds' announcements are a prefix of the first `n` rounds' |
| `Client.RoundInSpeech` | nao/Nao.py:93-115 | round `k`'s announcements appear in full right after those of rounds 0 to `k-1` |
| `Client.RoundInScript` | nao/Nao.py:90-117 | in a whole run, round `k` is spoken in full after the greeting and the earlier rounds, and before the farewell |
| `Client.FailedCaptureSkipsSend` | nao/Nao.py:97-100 | a failed capture (`capture_image` returning `None`, nao/Nao.py:46-48) says the prompt and "No pude capturar la imagen.", and the round is the same whatever the network or serializer would have done |
| `Client.FallbackIsNoDetection` | nao/Nao.py:105-107 | a failed exchange, or a payload of 2^32 bytes or more, ends the round with "No pude detectar ningun objeto." |
| `Protocol.HeaderRoundTrip` | nao/Nao.py:53 | unpacking a packed length gives the length back, for every length below 2^32 |
| `Protocol.HeaderInverse` | servidor/servidor.py:87 | packing an unpacked 4-byte header gives the header back: the big-endian encoding is a bijection |
| `Protocol.FrameRoundTrip` | servidor/servidor.py:82-96 | for any split of the client's frame into segments whose first read holds the header, the server reads back exactly the payload sent |
| `Protocol.ServerClassifiesPayload` | servidor/servidor.py:106 | in that case the server's reply is the classification of exactly the client's payload |
| `Protocol.EmptyPayload` | servidor/servidor.py:92-106 | an empty payload travels as four zero bytes and is classified as an empty payload |
| `Protocol.SplitHeaderRefused` | servidor/servidor.py:82-87 | a well-formed frame whose first read brings only part of the header gets the `ERROR:` reply for the failed unpack |
| `Protocol.TruncatedBody` | servidor/servidor.py:98-101 | a header declaring `n` followed by fewer than `n` bytes is reported with the exact counts and answered `-1`, whatever the classifier would do |
| `Protocol.LabelShape` | servidor/servidor.py:21-25 | no class name starts like `_`, `ERROR:` or `-1`, or is shorter than 3 characters |
| `Protocol.WireDistinct` | servidor/servidor.py:100-114 | two replies the server can send with the same text are the same reply: label, `-1` and `ERROR:` replies cannot be confused |
| `Protocol.AnnouncedReply` | nao/Nao.py:106-112 | the client announces an empty reply as "no detection" and every other reply, `-1` and `ERROR:...` included, as a detected object |
| `Protocol.RoundEndToEnd` | nao/Nao.py:105-112 | in one round, the server classifies exactly the serialized capture; however the reply is split into segments, the client announces as a detected object its first read, a nonempty prefix of at most 1024 characters of the reply text |

## Left out

- Image preprocessing is not modelled: PIL decoding, the raw-RGB fallback, the debug image file, the resize to 224x224, float32 normalisation and the transpose. It is floating point plus foreign library calls. It is part of the `classify` parameter, which may return a failure.
- The ONNX session and the model file are not modelled. The classifier's outcome is the `classify` parameter.
- Scores are integers, not float32. NaN handling in `argmax` is not modelled.
- Socket creation, bind, listen, accept, connect, shutdown and close are not modelled. Neither is the closing of the connection by `with conn`. These are I/O plumbing; the peer is a list of segments.
- Server-side socket errors are not modelled: a `recv` that raises (connection reset) and a `sendall` that fails. The model's peer always delivers segments and accepts the reply.
- A peer that neither sends nor closes blocks the real server forever: there is no timeout on the header read (servidor/servidor.py:82) or the body reads (servidor/servidor.py:93). A finite list of segments always ends in data or a close, so the model cannot express such a peer, and the termination of `Server.Connection.ReceiveBody` and `Server.Connection.Handle` holds only for peers that eventually send or close.
- The server's accept loop never ends. `Server.Serve` covers any finite sequence of accepted connections.
- The serializer (`pickle.dumps`) is a parameter. Its output is opaque bytes.
- Client-side connection failures are one outcome, `LinkFailed`, standing for any exception in connect, send or receive.
- The NAOqi proxies, the `time.sleep` pauses, `save_image` and the printed log lines are not modelled. They are device SDKs, timing and file I/O.
- `Client.Speaker.SafeSay` records every text handed to the speech device. Whether the device actually spoke is not modelled, because its failure is swallowed and does not change the control flow.
- Python 2 `unicode`/`str` coercions are not modelled. All text is a string of characters and UTF-8 encoding is not modelled.
- Diagnostic texts: the server's own exceptions use fixed `repr` strings. The exact wording depends on the Python version. Classifier failures carry an abstract diagnostic.
