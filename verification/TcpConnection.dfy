/** One TCP connection as its holder sees it: a shared liveness flag guarding a byte stream. */
module TcpConnections {
  import opened HttpText
  import opened Wrappers

  datatype TcpErrorKind = Stopped | ReadFailed | WriteFailed

  /** The `generation_live` flag, shared with the listener and with every other connection. */
  class AtomicBool {
    var value: bool

    constructor (initial: bool)
      ensures value == initial
    {
      value := initial;
    }
  }

  /** How the incoming stream ends once its remaining bytes are delivered. */
  datatype Ending = Eof | Broken | GenerationStopped

  /** A call of `read_some`: how far the reader was and how much it asked for. */
  datatype Request = Request(at: nat, size: nat)

  class TcpConnection {
    const generationLive: AtomicBool
    const incoming: seq<Byte>     // everything the peer ever delivers on this connection
    const ending: Ending
    var position: nat             // bytes read so far
    var outgoing: seq<Byte>       // bytes written so far
    var writable: bool
    ghost var requests: seq<Request>  // the calls of `read_some`

    constructor (generationLive: AtomicBool, incoming: seq<Byte>, ending: Ending)
      ensures Valid()
      ensures this.generationLive == generationLive
      ensures this.incoming == incoming && this.ending == ending && position == 0
      ensures outgoing == [] && writable && requests == []
    {
      this.generationLive := generationLive;
      this.incoming := incoming;
      this.ending := ending;
      position := 0;
      outgoing := [];
      writable := true;
      requests := [];
    }

    ghost predicate Valid()
      reads this
    {
      position <= |incoming|
    }

    /** How far a reader can still get: nowhere once the generation is down. */
    ghost function Limit(): nat
      reads this, generationLive
    {
      if generationLive.value then |incoming| else position
    }

    /** The bytes a reader can still get. */
    ghost function Readable(): seq<Byte>
      requires Valid()
      reads this, generationLive
    {
      incoming[position..Limit()]
    }

    ghost function End(): Ending
      reads this, generationLive
    {
      if generationLive.value then ending else GenerationStopped
    }

    method EnsureLive() returns (r: Result<(), TcpErrorKind>)
      ensures r == if generationLive.value then Ok(()) else Err(Stopped)
    {
      if generationLive.value {
        r := Ok(());
      } else {
        r := Err(Stopped);
      }
    }

    /** One blocking read: it may deliver any non-empty part of what it was asked for. */
    method ReadSome(maxBytes: nat) returns (r: Result<seq<Byte>, TcpErrorKind>)
      requires Valid()
      modifies this`position, this`requests
      ensures Valid()
      ensures requests == old(requests) + [Request(old(position), maxBytes)]
      ensures old(position) <= position <= old(position) + maxBytes && position <= old(Limit())
      ensures r.Ok? ==> r.value == incoming[old(position)..position]
      ensures r.Ok? && r.value == [] ==> maxBytes == 0 || (position == Limit() && End() == Eof)
      ensures r.Err? ==> old(position) == position == Limit() && End() != Eof
      ensures r.Err? ==> r.error == if End() == Broken then ReadFailed else Stopped
      ensures !generationLive.value ==> r == Err(Stopped)
    {
      requests := requests + [Request(position, maxBytes)];
      var live := EnsureLive();
      if live.Err? {
        return Err(live.error);
      }
      if maxBytes == 0 {
        return Ok([]);
      }
      if position == |incoming| {
        return if ending == Eof then Ok([]) else if ending == Broken then Err(ReadFailed) else Err(Stopped);
      }
      var count: nat :| 1 <= count <= maxBytes && count <= |incoming| - position;
      r := Ok(incoming[position..position + count]);
      position := position + count;
    }

    /** Writes everything or reports a write failure. */
    method WriteAll(bytes: seq<Byte>) returns (r: Result<(), TcpErrorKind>)
      modifies this`outgoing
      ensures r == if !generationLive.value then Err(Stopped) else if writable then Ok(()) else Err(WriteFailed)
      ensures r.Ok? ==> outgoing == old(outgoing) + bytes
      ensures r == Err(Stopped) ==> outgoing == old(outgoing)
    {
      var live := EnsureLive();
      if live.Err? {
        return Err(live.error);
      }
      if !writable {
        return Err(WriteFailed);
      }
      outgoing := outgoing + bytes;
      r := Ok(());
    }
  }
}
