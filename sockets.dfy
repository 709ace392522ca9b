/** Byte streams as a stream socket hands them over.

    What a peer sends is modelled as the sequence of segments that the
    successive `recv` calls find waiting, in arrival order.  A `recv(n)` takes
    at most `n` items from the front segment and leaves the rest of it queued.
    An empty segment, or the end of the sequence, is the peer's close: from
    then on every `recv` returns nothing. */
module Sockets {

  newtype byte = x: int | 0 <= x < 256

  datatype Option<+T> = None | Some(value: T)

  function Min(a: int, b: int): int {
    if a < b then a else b
  }

  /** Everything the peer sends before it closes, in order. */
  function Delivered<T>(segments: seq<seq<T>>): seq<T> {
    if segments == [] || segments[0] == [] then []
    else segments[0] + Delivered(segments[1..])
  }

  /** What one `recv(bufsize)` returns: a prefix of the delivered stream,
      at most `bufsize` long, empty only at the close (or when asked for nothing). */
  function FirstRead<T>(segments: seq<seq<T>>, bufsize: nat): (r: seq<T>)
    ensures |r| <= bufsize
    ensures |r| <= |Delivered(segments)| && r == Delivered(segments)[..|r|]
    ensures r == [] <==> bufsize == 0 || Delivered(segments) == []
  {
    if segments == [] then []
    else segments[0][..Min(bufsize, |segments[0]|)]
  }

  /** The segments still queued after one `recv(bufsize)`. */
  function AfterRead<T>(segments: seq<seq<T>>, bufsize: nat): (rest: seq<seq<T>>)
    ensures Delivered(segments) == FirstRead(segments, bufsize) + Delivered(rest)
  {
    if segments == [] || segments[0] == [] || bufsize == 0 then segments
    else if |segments[0]| <= bufsize then segments[1..]
    else
      var tail := segments[0][bufsize..];
      assert segments[0] == segments[0][..bufsize] + tail;
      [tail] + segments[1..]
  }
}
