/** From a response body to the reads a collection window loops over. */
module EventSource {
  import Framing
  import opened EventTypes
  import opened Options
  import opened EventWindow

  /** Unmarshalling one object's text, or failing to. */
  type Decoder = string -> Option<RawEvent>

  function ReadOf(decode: Decoder, text: string): Read {
    match decode(text)
    case Some(e) => Decoded(e, |text|)
    case None => Malformed(|text|)
  }

  function ReadsOf(decode: Decoder, texts: seq<string>): (r: seq<Read>)
    ensures |r| == |texts| && forall i :: 0 <= i < |r| ==> r[i] == ReadOf(decode, texts[i])
  {
    if texts == [] then [] else ReadsOf(decode, texts[..|texts| - 1]) + [ReadOf(decode, texts[|texts| - 1])]
  }

  /** What the answer that is not an object means for the window: nothing, an oversize object, or a broken one. */
  function LastRead(last: Framing.Frame): seq<Read> {
    match last
    case EndOfStream => []
    case TooLong => [Oversize]
    case _ => [Malformed(0)]
  }

  /** A body of whitespace-separated objects yields one read per object, in order, and nothing else. */
  method ReadStream(body: string, decode: Decoder, ghost ps: seq<Framing.Piece>, ghost tail: string)
    returns (stream: seq<Read>)
    ensures Framing.Holds(body, 0, DECODE_MAX_BYTES + 1, ps, tail) ==>
              stream == ReadsOf(decode, Framing.Texts(ps))
  {
    var texts, last := Framing.FrameAll(body, DECODE_MAX_BYTES + 1, ps, tail);
    stream := ReadsOf(decode, texts) + LastRead(last);
  }

  /** Collects straight from the body: the window runs over exactly the objects the body holds. */
  method CollectFromBody(w: Window, ctl: Control, body: string, decode: Decoder,
                         ghost ps: seq<Framing.Piece>, ghost tail: string)
    returns (r: Outcome, ghost n: nat, ghost x: Exit)
    ensures w.since < w.until && Framing.Holds(body, 0, DECODE_MAX_BYTES + 1, ps, tail) ==>
              && Stops(ctl, Items(w, ReadsOf(decode, Framing.Texts(ps))), n, x)
              && r == OutcomeOf(w, Items(w, ReadsOf(decode, Framing.Texts(ps))), n, x)
  {
    var stream := ReadStream(body, decode, ps, tail);
    r, n, x := CollectDockerEventWindow(w, ctl, stream);
  }
}
