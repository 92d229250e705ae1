/** What a connection does when it is read: scripted events, and then always the same answer. */
module Network {
  import opened Prelude

  /** A read never returns an empty piece: zero octets mean the end of the stream. */
  type Piece = b: bytes | |b| > 0 witness [0]

  datatype ReadEvent = Data(piece: Piece) | WouldBlock

  /** What every read answers once the scripted events are used up. */
  datatype Ending = Open | Closed | Broken

  /** All that will arrive. */
  function Arriving(script: seq<ReadEvent>): bytes {
    if script == [] then []
    else (match script[0] { case Data(piece) => piece case WouldBlock => [] }) + Arriving(script[1..])
  }

  class ByteStream {
    var script: seq<ReadEvent>
    const ending: Ending

    constructor (script: seq<ReadEvent>, ending: Ending)
      ensures this.script == script && this.ending == ending
    {
      this.script := script;
      this.ending := ending;
    }
  }
}
