/** The capture client on the robot: five rounds of prompt, capture, send to
    the server and announce the result.

    The camera, the text-to-speech device, the serializer and the network are
    inputs: each round's capture outcome, the serializer as a function, and
    for each round what the connection to the server yields. */
module Client {
  import opened Sockets

  /** Number of capture rounds. */
  const Rounds: nat := 5
  /** Size of the single read that fetches the server's reply. */
  const RecvSize: nat := 1024
  /** Result reported when the exchange with the server fails. */
  const Fallback := "_"

  const Greeting := "Iniciando reconocimiento de objetos."
  const CaptureFailedSpeech := "No pude capturar la imagen."
  const AnalyzingSpeech := "Analizando la imagen, un momento por favor."
  const NoDetectionSpeech := "No pude detectar ningun objeto."
  const DetectedPrefix := "Detecte el siguiente objeto: "
  const Farewell := "Proceso de deteccion terminado. Gracias."

  /** `struct.pack("!I", n)`: four bytes, most significant first. */
  function PackBE32(n: nat): (h: seq<byte>)
    requires n < 0x1_0000_0000
    ensures |h| == 4
  {
    [(n / 0x100_0000) as byte, (n / 0x1_0000 % 0x100) as byte,
     (n / 0x100 % 0x100) as byte, (n % 0x100) as byte]
  }

  /** The request frame: the 4-byte length header, then the payload. Packing
      a length of 2^32 or more raises, and no frame is produced. */
  function EncodeFrame(payload: seq<byte>): (f: Option<seq<byte>>)
    ensures f.Some? <==> |payload| < 0x1_0000_0000
    ensures f.Some? ==> |f.value| == 4 + |payload| && f.value[4..] == payload
  {
    if |payload| < 0x1_0000_0000 then Some(PackBE32(|payload|) + payload) else None
  }

  /** What the connection to the server yields once the frame is packed:
      an exception while connecting, sending or receiving, or the segments
      the reply arrives in. */
  datatype Link = LinkFailed | Answered(reply: seq<seq<char>>)

  /** `send_to_server`: the text of one read of at most 1024 bytes of the
      reply, or "_" when anything fails. */
  function SendToServer(payload: seq<byte>, link: Link): (r: string)
    ensures |r| <= RecvSize
    ensures |payload| >= 0x1_0000_0000 || link.LinkFailed? ==> r == Fallback
    ensures |payload| < 0x1_0000_0000 && link.Answered? ==>
      && |r| <= |Delivered(link.reply)| && r == Delivered(link.reply)[..|r|]
      && (r == [] <==> Delivered(link.reply) == [])
  {
    match EncodeFrame(payload)
    case None => Fallback
    case Some(_) =>
      match link
      case LinkFailed => Fallback
      case Answered(reply) => FirstRead(reply, RecvSize)
  }

  /** The results announced as "no detection". */
  predicate NoDetection(pred: string) {
    pred == "" || pred == Fallback
  }

  /** The announcement for a result: the result itself can be read back
      from any announcement that is not "no detection". */
  function Announce(pred: string): (s: string)
    ensures s == NoDetectionSpeech <==> NoDetection(pred)
    ensures !NoDetection(pred) ==>
      |s| >= |DetectedPrefix| && s[..|DetectedPrefix|] == DetectedPrefix && s[|DetectedPrefix|..] == pred
  {
    if NoDetection(pred) then NoDetectionSpeech
    else
      assert (DetectedPrefix + pred)[0] != NoDetectionSpeech[0];
      DetectedPrefix + pred
  }

  /** What `capture_image` hands back: the raw pixels with their size, or
      nothing when the camera raised. */
  datatype Capture = Captured(image: seq<byte>, width: int, height: int) | CaptureFailed

  /** The inputs of one round. */
  datatype Round = Round(capture: Capture, link: Link)

  /** Serialization of the captured triple into the request payload. */
  type Serializer = (seq<byte>, int, int) -> seq<byte>

  function DigitChar(d: nat): char
    requires d < 10
  {
    "0123456789"[d]
  }

  /** `"%d" % n`. */
  function Decimal(n: nat): string {
    if n < 10 then [DigitChar(n)] else Decimal(n / 10) + [DigitChar(n % 10)]
  }

  function Prompt(i: nat): string {
    "Por favor, muestra el objeto numero " + Decimal(i + 1) + "."
  }

  /** The announcements of round `i` (counted from 0). */
  function RoundSpeech(i: nat, round: Round, dumps: Serializer): (s: seq<string>)
    ensures |s| == if round.capture.Captured? then 3 else 2
    ensures s[0] == Prompt(i)
    ensures round.capture.CaptureFailed? ==> s[1] == CaptureFailedSpeech
    ensures round.capture.Captured? ==> s[1] == AnalyzingSpeech
  {
    match round.capture
    case CaptureFailed => [Prompt(i), CaptureFailedSpeech]
    case Captured(image, width, height) =>
      [Prompt(i), AnalyzingSpeech, Announce(SendToServer(dumps(image, width, height), round.link))]
  }

  /** The announcements of the first `n` rounds. */
  function Speech(rounds: seq<Round>, n: nat, dumps: Serializer): seq<string>
    requires n <= |rounds|
  {
    if n == 0 then [] else Speech(rounds, n - 1, dumps) + RoundSpeech(n - 1, rounds[n - 1], dumps)
  }

  /** Everything the client announces in one run. */
  function Script(rounds: seq<Round>, dumps: Serializer): (s: seq<string>)
    requires |rounds| == Rounds
    ensures |s| >= 2 && s[0] == Greeting && s[|s| - 1] == Farewell
  {
    [Greeting] + Speech(rounds, |rounds|, dumps) + [Farewell]
  }

  /** Number of the first `n` rounds whose capture succeeded. */
  function CapturedCount(rounds: seq<Round>, n: nat): nat
    requires n <= |rounds|
  {
    if n == 0 then 0
    else CapturedCount(rounds, n - 1) + (if rounds[n - 1].capture.Captured? then 1 else 0)
  }

  /** The text-to-speech device: the texts handed to it, in order. */
  class Speaker {
    var said: seq<string>

    constructor ()
      ensures said == []
    {
      said := [];
    }

    /** `safe_say`: a failure of the device is logged and swallowed, so
        the call always returns to its caller. */
    method SafeSay(text: string)
      modifies this
      ensures said == old(said) + [text]
    {
      said := said + [text];
    }
  }

  /** One pass of the loop body of `main`: prompt, capture, and either
      report the failed capture and go on to the next round, or send the
      capture to the server and announce what comes back. */
  method PlayRound(tts: Speaker, i: nat, round: Round, dumps: Serializer)
    modifies tts
    ensures tts.said == old(tts.said) + RoundSpeech(i, round, dumps)
  {
    tts.SafeSay(Prompt(i));
    var capture := round.capture;
    if capture.CaptureFailed? {
      tts.SafeSay(CaptureFailedSpeech);
      return;
    }
    tts.SafeSay(AnalyzingSpeech);
    var pred := SendToServer(dumps(capture.image, capture.width, capture.height), round.link);
    if NoDetection(pred) {
      tts.SafeSay(NoDetectionSpeech);
    } else {
      tts.SafeSay(DetectedPrefix + pred);
    }
  }

  /** `main`: the greeting, five rounds, the farewell. */
  method RunSession(tts: Speaker, rounds: seq<Round>, dumps: Serializer)
    requires |rounds| == Rounds
    modifies tts
    ensures tts.said == old(tts.said) + Script(rounds, dumps)
  {
    tts.SafeSay(Greeting);
    for i := 0 to Rounds
      invariant tts.said == old(tts.said) + [Greeting] + Speech(rounds, i, dumps)
    {
      assert Speech(rounds, i + 1, dumps) == Speech(rounds, i, dumps) + RoundSpeech(i, rounds[i], dumps);
      PlayRound(tts, i, rounds[i], dumps);
    }
    tts.SafeSay(Farewell);
  }

  /** Each round contributes its prompt and one outcome announcement, plus
      "analysing" when its capture succeeded. */
  lemma {:induction false} SpeechLength(rounds: seq<Round>, n: nat, dumps: Serializer)
    requires n <= |rounds|
    ensures |Speech(rounds, n, dumps)| == 2 * n + CapturedCount(rounds, n)
  {
    if n > 0 {
      SpeechLength(rounds, n - 1, dumps);
    }
  }

  /** A run announces between 12 and 17 texts: 2 per round, 1 more per
      successful capture, plus the greeting and the farewell. */
  lemma ScriptLength(rounds: seq<Round>, dumps: Serializer)
    requires |rounds| == Rounds
    ensures |Script(rounds, dumps)| == 2 + 2 * Rounds + CapturedCount(rounds, |rounds|)
    ensures 2 + 2 * Rounds <= |Script(rounds, dumps)| <= 2 + 3 * Rounds
  {
    SpeechLength(rounds, |rounds|, dumps);
    CapturedCountBound(rounds, |rounds|);
  }

  lemma {:induction false} CapturedCountBound(rounds: seq<Round>, n: nat)
    requires n <= |rounds|
    ensures CapturedCount(rounds, n) <= n
  {
    if n > 0 {
      CapturedCountBound(rounds, n - 1);
    }
  }

  /** The rounds' announcements come in round order: the first `k` rounds'
      announcements are a prefix of those of the first `n`. */
  lemma {:induction false} SpeechPrefix(rounds: seq<Round>, k: nat, n: nat, dumps: Serializer)
    requires k <= n <= |rounds|
    ensures |Speech(rounds, k, dumps)| <= |Speech(rounds, n, dumps)|
    ensures Speech(rounds, n, dumps)[..|Speech(rounds, k, dumps)|] == Speech(rounds, k, dumps)
  {
    if k < n {
      SpeechPrefix(rounds, k, n - 1, dumps);
      PrefixOfConcat(Speech(rounds, k, dumps), Speech(rounds, n - 1, dumps), RoundSpeech(n - 1, rounds[n - 1], dumps));
    }
  }

  lemma PrefixOfConcat<T>(a: seq<T>, b: seq<T>, c: seq<T>)
    requires |a| <= |b| && b[..|a|] == a
    ensures (b + c)[..|a|] == a
  {
  }

  lemma SliceAfterPrefix<T>(all: seq<T>, a: seq<T>, b: seq<T>)
    requires |a| + |b| <= |all| && all[..|a| + |b|] == a + b
    ensures all[|a|..|a| + |b|] == b
  {
  }

  lemma SliceInside<T>(x: T, all: seq<T>, y: T, i: nat, j: nat)
    requires i <= j <= |all|
    ensures ([x] + all + [y])[1 + i..1 + j] == all[i..j]
  {
  }

  /** Round `k` is spoken in full, right after the rounds before it. */
  lemma RoundInSpeech(rounds: seq<Round>, k: nat, n: nat, dumps: Serializer)
    requires k < n <= |rounds|
    ensures |Speech(rounds, k + 1, dumps)| <= |Speech(rounds, n, dumps)|
    ensures Speech(rounds, n, dumps)[|Speech(rounds, k, dumps)|..|Speech(rounds, k + 1, dumps)|]
         == RoundSpeech(k, rounds[k], dumps)
  {
    var before, s := Speech(rounds, k, dumps), RoundSpeech(k, rounds[k], dumps);
    SpeechPrefix(rounds, k + 1, n, dumps);
    assert Speech(rounds, k + 1, dumps) == before + s;
    SliceAfterPrefix(Speech(rounds, n, dumps), before, s);
  }

  /** In the whole run, round `k` is spoken in full after the greeting and
      the rounds before it, and before the farewell. */
  lemma RoundInScript(rounds: seq<Round>, k: nat, dumps: Serializer)
    requires |rounds| == Rounds && k < Rounds
    ensures 1 + |Speech(rounds, k + 1, dumps)| < |Script(rounds, dumps)|
    ensures Script(rounds, dumps)[1 + |Speech(rounds, k, dumps)|..1 + |Speech(rounds, k + 1, dumps)|]
         == RoundSpeech(k, rounds[k], dumps)
  {
    RoundInSpeech(rounds, k, |rounds|, dumps);
    SliceInside(Greeting, Speech(rounds, |rounds|, dumps), Farewell,
                |Speech(rounds, k, dumps)|, |Speech(rounds, k + 1, dumps)|);
  }

  /** A round whose capture fails says so and sends nothing: its
      announcements depend neither on the network nor on the serializer. */
  lemma FailedCaptureSkipsSend(i: nat, l1: Link, l2: Link, d1: Serializer, d2: Serializer)
    ensures RoundSpeech(i, Round(CaptureFailed, l1), d1) == [Prompt(i), CaptureFailedSpeech]
    ensures RoundSpeech(i, Round(CaptureFailed, l1), d1) == RoundSpeech(i, Round(CaptureFailed, l2), d2)
  {
  }

  /** When the exchange fails, or the payload is too long to frame, the
      round ends with "no detection". */
  lemma FallbackIsNoDetection(i: nat, image: seq<byte>, width: int, height: int, link: Link, dumps: Serializer)
    requires link.LinkFailed? || |dumps(image, width, height)| >= 0x1_0000_0000
    ensures RoundSpeech(i, Round(Captured(image, width, height), link), dumps)[2] == NoDetectionSpeech
  {
  }
}
